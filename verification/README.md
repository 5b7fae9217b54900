# The compression engine of swift-nio-extras, modelled and verified

`Sources/CNIOExtrasZlib` is the zlib that `NIOHTTPCompression` compresses and decompresses with. This
project models its two engines, deflate and inflate, and both checksums, in Dafny, and proves what they
are for. Methods follow the C code: arrays updated in place, the same loops and branches, the same
constants, 16- and 32-bit arithmetic where it can wrap. Beside them stand short mathematical
definitions that the methods are proved against:

- `Format.dfy` is the DEFLATE format (RFC 1951), with the zlib trailer (RFC 1950), as a machine that
  reads bits and writes bytes. It knows code lengths and canonical codes, but no tables, bit buffers
  or windows. Its steps are the states of inflate.
- `Format.Expand` says what literals, lengths and distances stand for.
- `Canonical.dfy` defines the codes of section 3.2.2 of RFC 1951 by symbol counts alone.
- `Search.dfy` says, for positions in the stream of all input, which strings a search may compare, which
  match it finds, and which token the loops of deflate output after it.
- `Adler.Sums`, `Crc.CrcFrom` and the polynomials of `Gf2.dfy` define the checksums.

The layers, from the bottom:

| files | what they model |
|---|---|
| Bits, BitWriter, BitReader | shifts and masks, the output bit buffer, the input accumulator |
| Canonical, GenCodes, StaticInit, Fixed | canonical codes, static tables and trees, the fixed codes |
| HuffTree, PqHeap, MergeTree, LengthRepair, GenBitLen, BuildTree, CodeCost | the heap, Huffman's merges, lengths with overflow repair, optimality, what a code costs |
| DecodeTable, TableSpace, InflateTable, Lookup, SymbolReader | two-level decoding tables, their exact size, building and using them |
| Format, Codec, Compress, Rle, RunCodes, TreeHeader, Blocks, Costs, FlushBlock, Overlay | tokens, block data, dynamic headers, blocks, their cost and choice, room in the overlaid buffers |
| Hash, Matcher, Search, FlushMode, Deflate, Stored | rolling hash, sliding window and hash chains, what a search finds and which tokens follow, the five compression loops |
| RoundTrip, Feeding, Ring, InflateSteps, Inflate, FastEntry, Session | round trip, independence of divided input, the ring buffer, the resumable decoder with its fast path, whole sessions |
| Zlib | deflate and inflate together |
| Adler, Gf2, GfMultiply, PowersOfX, Crc, CrcBraid | both checksums, combining them, the braided CRC |

The main results, each for all inputs:

- `Zlib.DeflateInflate`: deflate and then inflate, with input and output in portions of any sizes at both
  ends, gives back exactly the input. It runs `Deflate.CompressAll` (the tokens stand for the input),
  `FlushBlock.BlockWriter.TrFlushBlock` for each block (the bits sent are an encoding of its tokens), the
  check value, and `Session.InflateAll` (inflate refines the format's machine, on the slow and on the fast
  path, and stops only when that machine does). With Z_FIXED there is no condition. Otherwise the blocks
  need room in the overlaid buffers, and a decoding table may not exceed its space; both conditions are
  stated exactly and discharged where they can be (`Zlib.FewSymbols`, `Zlib.LittleData`,
  `Overlay.RoomUnlessDeep`, `TableSpace.TableSize`).
- `Session.InflateTwice`: the output does not depend on how the input and the space for output are divided.
- `BuildTree.BuildTree`: every frequency vector gets a complete code within the length limit, with
  exact cost accounting, and the cheapest prefix code there is unless a length had to be cut off, which
  happens exactly when a symbol of the Huffman tree lies too deep. `Overlay.CheapestBlock`: so no codes
  send a block's data in fewer bits. Cut off or not, a more frequent symbol never has the longer code, and
  the repair keeps as many of the shortest codes as any lengths that fit (`LengthRepair.Repair`).
- `FlushBlock.BlockWriter.TrFlushBlock`: of the stored, fixed and dynamic encodings of a block the one with the
  fewest bytes is sent.
- `InflateTable.InflateTable`: the table decodes exactly the canonical code; -1 is returned for exactly
  the unusable sets of lengths, and 1 exactly when `TableSpace.TableSize` of the lengths exceeds the space.
- `Deflate.CompressAll`: each token of a whole run is what the search at its place tells the loop to output.
  Every search compares the last strings inserted with the same hash, nearest first, as many as the level
  allows (`Search.FoundRecent`), and finds the longest match among them, or the nearest that is nice enough
  (`Matcher.Matcher.LongestMatch`). deflate_fast takes every match found; deflate_slow gives one up just for a
  longer one at the next byte.
- `Stored.StoreAll`: a whole run at level 0 puts out stored blocks that hold exactly the input, each but the
  last of them large.
- `CrcBraid.Crc32z`, `Crc.Combine`, `Adler.Adler32z`, `Adler.CombineIsConcat`: the fast checksums are
  the defined ones, for every length and alignment, and combining is concatenation.

## Model

The build is the default one: no `FASTEST`, `LIT_MEM`, `UNALIGNED_OK` or `NO_DIVIDE`, N = 5 braids of
W = 8 bytes, little endian; decoding has `wbits` = 15. Methods of classes that change state are specified by
their whole new state, as a function of the old one.

| member | source | states |
|---|---|---|
| Bits.LowHighMod | Sources/CNIOExtrasZlib/inflate.c:374-383 | masking n bits off and shifting by n are remainder and quotient by 2^n |
| BitWriter.BitWriter.SendBits | Sources/CNIOExtrasZlib/trees.c:280-286 | the bits sent so far are followed by the value's bits, least significant first, whether or not the 16-bit buffer spills; bytes outside the written range stay |
| BitWriter.BitWriter.BiFlush | Sources/CNIOExtrasZlib/trees.c:166-176 | no bit is lost or changed, and at most 7 stay in the bit buffer |
| BitWriter.BitWriter.BiWindup | Sources/CNIOExtrasZlib/trees.c:181-193 | fewer than 8 zero bits are added, and the output ends on a byte boundary |
| GenCodes.BiReverse | Sources/CNIOExtrasZlib/trees.c:154-161 | the result is the code with its first len bits in reverse order |
| Canonical.PrefixFree | Sources/CNIOExtrasZlib/trees.c:203-232 | a set of lengths that is not over-subscribed gives a prefix-free code: no other symbol's sent code starts with a symbol's sent code |
| Canonical.CompleteCode | Sources/CNIOExtrasZlib/inftrees.c:94-137 | if the lengths fill the code space, every 15 bits start with the code of exactly one symbol |
| GenCodes.GenCodes | Sources/CNIOExtrasZlib/trees.c:203-232 | every symbol with a nonzero length gets its canonical code of section 3.2.2 of RFC 1951, reversed for sending; other code fields stay |
| PqHeap.PqDownHeap | Sources/CNIOExtrasZlib/trees.c:509-528 | if only entry k may be out of order, sifting it down restores the heap; the entries stay the same as a multiset |
| PqHeap.FirstIsSmallest | Sources/CNIOExtrasZlib/trees.c:484-499 | nothing in the heap is smaller than its first entry, by frequency and then depth |
| MergeTree.PqRemove | Sources/CNIOExtrasZlib/trees.c:484-488 | the entry taken is the least of all, the rest stay and form a heap |
| MergeTree.CollectSymbols | Sources/CNIOExtrasZlib/trees.c:635-652 | the heap holds exactly the symbols that occur, the greatest is known, all others get length 0 |
| MergeTree.ForceTwo | Sources/CNIOExtrasZlib/trees.c:655-661 | at least two symbols have a code; exactly the symbols that ForcedSymbols names are added (2 just when symbol 1 is the only one that occurs), and what is taken from opt_len and static_len is exactly one bit and one static length for each |
| MergeTree.OnlySymbolOne | Sources/CNIOExtrasZlib/trees.c:655-661 | frequencies for which the forced symbol is 2, neither 0 nor 1 |
| MergeTree.LightestFirst | Sources/CNIOExtrasZlib/trees.c:671-684 | the two nodes that the heap gives up are two lightest roots of the forest, so its tie-break by depth never departs from Huffman's choice |
| MergeTree.MergeStep | Sources/CNIOExtrasZlib/trees.c:671-691 | one round: the two least nodes become sons of the new one, which takes their frequencies modulo 2^16 and one more than the greater of their depths; the heap holds one entry less |
| MergeTree.MergeAll | Sources/CNIOExtrasZlib/trees.c:671-692 | the merges end in one root that all symbols hang from, listed above the heap by falling position; they are Huffman's as long as the frequencies add up to less than 2^16 |
| HuffTree.LightestLongest | Sources/CNIOExtrasZlib/trees.c:671-684 | exchange argument: lengths can be rearranged, at no cost, so that the two lightest nodes are the longest |
| HuffTree.MergeLosesNothing | Sources/CNIOExtrasZlib/trees.c:671-684 | any lengths for the nodes before a merge give lengths after it that satisfy Kraft's inequality and cost less by the merged weight |
| HuffTree.NoCheaper | Sources/CNIOExtrasZlib/trees.c:635-697 | no lengths that satisfy Kraft's inequality cost less than the merges add up to |
| HuffTree.SplitKraft | Sources/CNIOExtrasZlib/trees.c:559-577 | giving a father's sons their lengths keeps the Kraft sum, or, when they are cut off at max_length, adds one unit of 2^-max_length |
| GenBitLen.FirstPass | Sources/CNIOExtrasZlib/trees.c:550-577 | every node is one longer than its father but not longer than max_length; overflow is twice the Kraft excess; opt_len and static_len grow by what these lengths take |
| LengthRepair.Shallow | Sources/CNIOExtrasZlib/trees.c:586-590 | while there is an excess, the search for a shorter length in use stops at a length of at least 1 |
| LengthRepair.RepairStep | Sources/CNIOExtrasZlib/trees.c:586-596 | each repair step takes one unit of the excess away and keeps the number of codes |
| LengthRepair.Repair | Sources/CNIOExtrasZlib/trees.c:580-596 | after the repair the statistics are those of a complete code of the same number of symbols, no length above max_length; of all such statistics that lengthen codes only, they keep the most codes of length 1, with them the most of length 2, and so on: each step moves down a leaf of the greatest length in use below max_length |
| LengthRepair.OnlyOneKeeps | Sources/CNIOExtrasZlib/trees.c:580-596 | what the repair promises names one result: there are no two statistics that keep the most short codes |
| GenBitLen.Rescan | Sources/CNIOExtrasZlib/trees.c:598-611 | each symbol gets one length, in accordance with the repaired statistics and longer ones first for the rarer symbols, without leaving the heap; opt_len changes by exactly the difference |
| GenBitLen.GenBitLen | Sources/CNIOExtrasZlib/trees.c:540-612 | for every tree of merges: a complete code within max_length, bl_count counts its lengths and keeps as many short ones of the tree as can be, opt_len and static_len are exact; a length is cut off just when a symbol of the tree lies deeper than max_length; without that the code costs what the merges do, and with it a more frequent symbol still never has the longer code |
| BuildTree.PrefixKraft | Sources/CNIOExtrasZlib/trees.c:203-220 | Kraft's inequality, for any prefix code given as bit strings |
| BuildTree.OptimalAmongPrefixCodes | Sources/CNIOExtrasZlib/trees.c:627-697 | an optimal set of lengths costs no more than any prefix code whatever, complete or not |
| BuildTree.MakeHeap | Sources/CNIOExtrasZlib/trees.c:668-671 | sifting down from the last father up makes a heap of any entries |
| BuildTree.GrowTree | Sources/CNIOExtrasZlib/trees.c:635-697 | the whole of build_tree up to gen_bitlen, for every frequency vector: the forced symbols, the heap and the merges |
| BuildTree.BuildTree | Sources/CNIOExtrasZlib/trees.c:627-706 | for every frequency vector: a complete code within max_length with its canonical codes, exact opt_len and static_len for the real occurrences; the lengths keep as many short ones of Huffman's tree as can be; for frequencies adding up to less than 2^16 no more frequent symbol has a longer code, and, unless a length was cut off, the total is minimal; a length is cut off just when a symbol lies too deep in the tree of merges |
| BuildTree.OptimalOrdered | Sources/CNIOExtrasZlib/trees.c:627-697 | in any optimal set of lengths a more frequent symbol has no longer code |
| CodeCost.OptimalIsCheapest | Sources/CNIOExtrasZlib/trees.c:627-697 | an optimal code takes no more bits for the symbols that really occur, extra bits included, than any code that has all of them |
| CodeCost.CutIsDeep | Sources/CNIOExtrasZlib/trees.c:550-577 | if a length is cut off, Huffman's merges for these frequencies have a symbol deeper than max_length |
| InflateTable.CodeSpaceLeft | Sources/CNIOExtrasZlib/inftrees.c:125-136 | what is left is 2^15 minus the Kraft sum; over-subscription is found exactly |
| InflateTable.SortSymbols | Sources/CNIOExtrasZlib/inftrees.c:138-146 | counting sort: by length, and by symbol within a length, without symbols of length 0 |
| InflateTable.BackIncrement | Sources/CNIOExtrasZlib/inftrees.c:229-240 | incrementing backwards gives the next code of that length, reversed |
| InflateTable.FillEntries | Sources/CNIOExtrasZlib/inftrees.c:218-227 | the entry goes to all indices whose low bits are the code, and only to them |
| InflateTable.SubtableBits | Sources/CNIOExtrasZlib/inftrees.c:258-266 | the look-ahead finds enough index bits for every code that shares the root index |
| InflateTable.BuildTables | Sources/CNIOExtrasZlib/inftrees.c:199-299 | the loop enters every code in the root table or in a linked sub-table, and writes only below used, which is the size that the lengths determine; it gives up just when that size exceeds the space |
| InflateTable.FinishComplete | Sources/CNIOExtrasZlib/inftrees.c:199-299 | for a complete code every lookup finds the symbol whose code the bits start with, and its length |
| InflateTable.FinishLone | Sources/CNIOExtrasZlib/inftrees.c:300-306 | a lone one-bit code: the other bit is marked invalid |
| InflateTable.InflateTable | Sources/CNIOExtrasZlib/inftrees.c:46-311 | -1 just for unusable sets of lengths, 1 just when the size that the lengths determine exceeds the space; else a table of exactly that size in which the two-level lookup of any bits finds exactly the symbol they start with, or the invalid mark where no code matches, with nothing written outside the table |
| Lookup.LookupSym | Sources/CNIOExtrasZlib/inflate.c:924-942 | a lookup takes 1 to 15 bits; if those are in hand it tells the same symbol as the format, and if not, no symbol can be read yet |
| Codec.LengthParts | Sources/CNIOExtrasZlib/trees.c:920-933 | base and extra bits of inflate's tables give back the length that deflate coded |
| Codec.DistParts | Sources/CNIOExtrasZlib/trees.c:934-943 | the same for distances |
| Codec.TokenSteps | Sources/CNIOExtrasZlib/inflate.c:914-1071 | the bits of a token make the format's machine put out what the token stands for, and use no more |
| Codec.BlockRoundTrip | Sources/CNIOExtrasZlib/trees.c:900-951 | for every token sequence and usable pair of codes, the block's bits are read back as exactly those tokens and the end of the block |
| StaticInit.LengthTables | Sources/CNIOExtrasZlib/trees.c:325-340 | base_length and _length_code, by the loops, are the bases and codes of section 3.2.5 of RFC 1951, with the code without extra bits for length 258 |
| StaticInit.DistTables | Sources/CNIOExtrasZlib/trees.c:342-359 | base_dist and _dist_code: the lookup d_code gives the right code for each of the 32768 distances |
| StaticInit.StaticLtree | Sources/CNIOExtrasZlib/trees.c:361-372 | the static literal tree has the lengths of the fixed code and its canonical codes |
| StaticInit.StaticDtree | Sources/CNIOExtrasZlib/trees.c:374-378 | the reversed numbers are the canonical codes of the fixed distance code |
| Fixed.FixedCodesAre | Sources/CNIOExtrasZlib/trees.c:361-378 | the canonical codes of the fixed lengths are those that section 3.2.6 of RFC 1951 lists, symbol by symbol: 48 + s, 256 + s, s - 256 and s - 88 in the four ranges, and s itself for distances |
| Compress.SendToken | Sources/CNIOExtrasZlib/trees.c:914-945 | the bits of one symbol and no others are written, below the given byte |
| Compress.CompressBlock | Sources/CNIOExtrasZlib/trees.c:900-951 | the bits sent are those of the tokens in sym_buf, although sym_buf overlays pending_buf, given that no prefix of the bits reaches the next unread symbol |
| Fixed.FixedTokenBits | Sources/CNIOExtrasZlib/trees.c:1060-1063 | a symbol takes at most 31 bits in the fixed codes |
| Fixed.FixedNoOverlay | Sources/CNIOExtrasZlib/deflate.c:466-492 | for fixed-code blocks the condition on the overlay holds: started with at most 7 buffered bits, compress_block never writes at or beyond the next unread symbol |
| Overlay.HeaderSize | Sources/CNIOExtrasZlib/trees.c:833-855 | the header of a dynamic block takes at most 2283 bits |
| Overlay.CheapestBlock | Sources/CNIOExtrasZlib/trees.c:1011-1029 | unless a Huffman tree for its symbols is too deep, no codes send the data of a block in fewer bits than those of build_tree |
| Overlay.RoomUnlessDeep | Sources/CNIOExtrasZlib/deflate.c:466-503 | dynamic blocks too fit the overlaid buffers with memLevel 7 and more (8 is the default), unless a Huffman tree for their symbols is too deep |
| Overlay.RoomForFew | Sources/CNIOExtrasZlib/deflate.c:466-503 | blocks with few matches fit, whatever the trees |
| Overlay.RoomForLiterals | Sources/CNIOExtrasZlib/deflate.c:466-503 | so do the blocks of deflate_huff |
| Overlay.RoomForRuns | Sources/CNIOExtrasZlib/deflate.c:466-503 | so do the blocks of deflate_rle |
| Rle.TreeUndone | Sources/CNIOExtrasZlib/trees.c:712-747 | for every sequence of lengths below 16, the repeat codes rebuild exactly these lengths, after whatever came before |
| RunCodes.TreeRuns | Sources/CNIOExtrasZlib/trees.c:712-794 | the repeat codes are, for each run of equal lengths, the longest repeats there are and one code for the rest, in closed form, wherever the run stands |
| TreeHeader.ScanTree | Sources/CNIOExtrasZlib/trees.c:712-747 | the counts grow by exactly the codes that send_tree will send; the guard is set |
| TreeHeader.SendTree | Sources/CNIOExtrasZlib/trees.c:753-794 | the bits sent are those of the repeat codes of the lengths |
| TreeHeader.SendAllTrees | Sources/CNIOExtrasZlib/trees.c:833-855 | the bits sent are the header of section 3.2.7 of RFC 1951 |
| TreeHeader.HeaderHolds | Sources/CNIOExtrasZlib/trees.c:833-855 | a header holds the length of each code-length symbol in three bits at the place of section 3.2.7 of RFC 1951, computed from the symbol: 16, 17, 18, 0, 8 and then 8 - k and 8 + k in turn |
| TreeHeader.TreesSteps | Sources/CNIOExtrasZlib/inflate.c:824-872 | reading both trees one after the other gives both sequences of lengths; no repeat crosses from one to the other |
| TreeHeader.HeaderRoundTrip | Sources/CNIOExtrasZlib/inflate.c:782-909 | a dynamic header is read back as the code lengths that it was made from |
| Blocks.BlockRead | Sources/CNIOExtrasZlib/trees.c:997-1089 | a stored, fixed or dynamic block is read back as the output it stands for, whatever follows |
| Blocks.StreamRead | Sources/CNIOExtrasZlib/inflate.c:708-1071 | so is any sequence of blocks up to the last |
| Blocks.TrailerValue | Sources/CNIOExtrasZlib/inflate.c:1072-1095 | the four bytes that deflate writes, read and swapped by inflate, are the check value |
| Blocks.ZlibRoundTrip | Sources/CNIOExtrasZlib/inflate.c:708-1112 | a zlib stream after its header is read to its end: the output is what the blocks stand for and the check is accepted |
| Costs.BlockCost | Sources/CNIOExtrasZlib/trees.c:540-612 | the bits of a block's data are the sum over symbols of frequency times length and extra bits |
| Costs.HeaderCost | Sources/CNIOExtrasZlib/trees.c:800-826 | the bits of a header, from the counts of scan_tree |
| FlushBlock.BlockWriter.Tally | Sources/CNIOExtrasZlib/trees.c:1095-1119 | the buffer holds one more token, both frequency tables count it, and the result tells whether the buffer is full |
| FlushBlock.FourCodes | Sources/CNIOExtrasZlib/trees.c:812-818 | the lengths of the code-length code to be sent are never fewer than 4 |
| FlushBlock.BlockWriter.BuildBlTree | Sources/CNIOExtrasZlib/trees.c:800-826 | a usable code for the repeat codes of both trees, cheapest unless too deep, sent up to its last length that is not 0; opt_len grows by the exact size of the header |
| FlushBlock.BlockWriter.BuildTrees | Sources/CNIOExtrasZlib/trees.c:1011-1029 | 3 + opt_len and 3 + static_len are the exact bits of the block in its own and in the fixed codes |
| FlushBlock.TrStoredBlock | Sources/CNIOExtrasZlib/trees.c:860-875 | header, padding, length, its complement and the bytes, just fitting where they fit |
| FlushBlock.BlockWriter.SendBlock | Sources/CNIOExtrasZlib/trees.c:1026-1089 | the bits sent are an encoding of the tokens or of the window's bytes, the one with the fewest bytes: none more than the fixed codes take, than own codes take, unless fixed codes are wanted, or than stored_len + 4 with the bytes at hand, and which of them goes first when they take as many; it takes at most 8 stored_len + 42 bits with the bytes at hand, and exactly 3 + opt_len or 3 + static_len where those are chosen; after it the block state is empty |
| FlushBlock.BlockWriter.TrFlushBlock | Sources/CNIOExtrasZlib/trees.c:997-1089 | _tr_flush_block as a whole: the best of the three encodings of the tokens is appended, where the own codes are the cheapest there are unless a tree is too deep, and are sent without trailing zeros; the block state is as new; with Z_FIXED for every block, else for every block that has room in the overlaid buffers |
| FlushBlock.CostSent | Sources/CNIOExtrasZlib/trees.c:1026-1037 | the number of bytes that the encodings are compared by is that of the bits sent, rounded up; for a stored block it is up to ten bits less |
| Hash.RollOn | Sources/CNIOExtrasZlib/deflate.c:141-141 | after three updates the rolling hash depends on the last three bytes only |
| Hash.ThirdByte | Sources/CNIOExtrasZlib/deflate.c:1470-1480 | strings with the same first two bytes and the same hash have the same third byte, as longest_match assumes |
| Matcher.Matcher.SlideHash | Sources/CNIOExtrasZlib/deflate.c:187-210 | every head and link drops by the window size, or becomes 0 |
| Matcher.Matcher.Slide | Sources/CNIOExtrasZlib/deflate.c:266-280 | the upper half moves down; strstart, match_start, block_start (possibly below 0), insert, and every link name the same stream positions as before |
| Matcher.Matcher.ReadBuf | Sources/CNIOExtrasZlib/deflate.c:219-240 | as many bytes as there are and fit follow the lookahead; nothing before them changes |
| Matcher.Matcher.FillWindow | Sources/CNIOExtrasZlib/deflate.c:252-376 | strstart stays at least MIN_LOOKAHEAD below the end of the window, there is enough lookahead or no input, no byte of input is lost, and stream positions stay; of the strings that had to wait for input exactly those that are whole now are inserted |
| Matcher.Matcher.InsertString | Sources/CNIOExtrasZlib/deflate.c:155-163 | the string becomes the head of its hash chain, the old head its link, and all other heads and links stay; the head returned is the last string inserted before with the same hash, as far as the window reaches |
| Matcher.Matcher.CompareRun | Sources/CNIOExtrasZlib/deflate.c:1480-1500 | the eight-fold loop finds the exact length of the common run up to MAX_MATCH, within the window |
| Matcher.Matcher.LongestMatch | Sources/CNIOExtrasZlib/deflate.c:1389-1530 | the strings of the chain are compared in order, all of them unless a match of nice_length ends the search; a length above prev_length is that of a real match of the stream at match_start, within reach and within the lookahead; no string compared has a longer match, and none nearer has one as long, or as nice; else the length stays, cut to the lookahead |
| Search.WalkRecent | Sources/CNIOExtrasZlib/deflate.c:1389-1530 | following the links from the head comes to exactly the last strings inserted with the same hash, nearest first, up to the limit on distance or on steps |
| Search.FoundRecent | Sources/CNIOExtrasZlib/deflate.c:1880-1895 | so a search compares the last of all strings with the same hash in the stream that were inserted and are not too far away, and misses none but for the limit on steps |
| Deflate.Deflater.FindMatch | Sources/CNIOExtrasZlib/deflate.c:1976-1994 | the string at strstart is inserted and its chain searched, unless the match held is long enough or the head is too far away; the result is the best match among the strings of the chain, and it is put down as the search made at this place |
| Deflate.Deflater.RunOf | Sources/CNIOExtrasZlib/deflate.c:2104-2119 | the eight-fold loop finds how often the byte before repeats, exactly, up to MAX_MATCH and the lookahead |
| Deflate.Deflater.FastMatch | Sources/CNIOExtrasZlib/deflate.c:1897-1926 | the match goes out, and of the strings inside it all are inserted if it is no longer than max_insert_length and three more bytes are there, and else none |
| Deflate.Deflater.Settle | Sources/CNIOExtrasZlib/deflate.c:2010-2062 | the match held is taken if none longer has been found, given up for a literal if one has, and else what has been found is held |
| Deflate.Deflater.TakeHeld | Sources/CNIOExtrasZlib/deflate.c:2013-2038 | the match taken is the one found one byte before, and all strings inside it that are whole are inserted |
| Deflate.Deflater.FlushBlockOnly | Sources/CNIOExtrasZlib/deflate.c:1598-1620 | the tokens since the last block become a block, and block_start moves to strstart; no token is lost or changed; what is sent for it is the subject of Zlib.WriteBlock |
| Deflate.Deflater.DeflateHuff | Sources/CNIOExtrasZlib/deflate.c:2155-2185 | the tokens after the blocks always expand to the stream up to strstart; no input is lost; a finished call has put out everything; a block ends only with a full symbol buffer or at the end |
| Deflate.Deflater.DeflateRle | Sources/CNIOExtrasZlib/deflate.c:2084-2149 | the same for runs of one byte: each token is a match of distance 1 just where the byte before repeats at least three times, and of exactly that length |
| Deflate.Deflater.DeflateFast | Sources/CNIOExtrasZlib/deflate.c:1857-1948 | the same for greedy matching: each token is the match that the search at its place has found, or a literal where it has found none of three bytes |
| Deflate.Deflater.DeflateSlow | Sources/CNIOExtrasZlib/deflate.c:1956-2076 | the same for lazy matching, minus the byte that match_available holds back: a match found is given up just for a longer one at the next byte, after discarding those of three bytes from farther than 4096 and with Z_FILTERED those of up to five; across window slides, where prev_match may be -1 |
| Deflate.Deflater.RunLoop | Sources/CNIOExtrasZlib/deflate.c:1217-1220 | whichever loop the strategy or the level chooses, a call leaves tokens that expand to the stream and follow from the searches made, loses no input, and with Z_FINISH makes progress until all is out; after a flush the strings at the end that are not whole yet wait to be inserted |
| Deflate.CompressAll | Sources/CNIOExtrasZlib/deflate.c:1598-1620 | a whole run at any level above 0 and with any strategy, input in any portions and output space running out at any time: the blocks expand to exactly the input, the last of them and no other is marked, each other one fills the symbol buffer, and the check value is that of the input; each token follows from the search made at its place with the parameters of the level, each search knows all strings inserted before it, and the strings inside matches are inserted by the rule of the loop |
| Deflate.ConfigsAre | Sources/CNIOExtrasZlib/deflate.c:107-126 | the parameters of the searches at the default level and at levels 1 and 9, with a 32K window and memLevel 8 |
| Deflate.OneLast | Sources/CNIOExtrasZlib/deflate.c:1598-1620 | in any run, nothing follows a block that is marked as the last |
| RoundTrip.InflateUndoesDeflate | Sources/CNIOExtrasZlib/deflate.c:1598-1620 | whatever encoding is chosen for each block, reading the stream gives back what the tokens stand for, and accepts the check value |
| RoundTrip.BoundCoversStored | Sources/CNIOExtrasZlib/deflate.c:923-927 | for all n: 5 * ceil(n / 16383) <= (n >> 12) + (n >> 14) + (n >> 25) + 7 |
| Stored.Storer.PatchedHead | Sources/CNIOExtrasZlib/deflate.c:1721-1728 | the dummy block with replaced lengths has the bits of a block of len bytes, and takes (bi_valid + 42) >> 3 bytes |
| Stored.Storer.DirectBlocks | Sources/CNIOExtrasZlib/deflate.c:1689-1759 | the blocks that go directly to next_out hold the window's bytes and then input; avail_out is never exceeded; each but the last has 65535 bytes, and it stops just when no block that fits is worth its header; the last is marked just when all input is in it |
| Stored.Storer.UseDirect | Sources/CNIOExtrasZlib/deflate.c:1767-1794 | the window ends with the end of the input taken, whether it is replaced, slid or appended to |
| Stored.Storer.FillWindow | Sources/CNIOExtrasZlib/deflate.c:1809-1829 | the remaining input follows in the window, without loss of what is not yet in a block |
| Stored.Storer.PendingBlock | Sources/CNIOExtrasZlib/deflate.c:1831-1842 | a block from the window just when it is large enough for the window or the pending buffer, or holds all there is when flushing; it has as many bytes as there are and fit |
| Stored.Storer.DeflateStored | Sources/CNIOExtrasZlib/deflate.c:1668-1848 | for any avail_in, avail_out and flush: the bits put out are those of the stored blocks, and the blocks' bytes followed by the window from block_start to strstart are all input taken; all blocks are large but the last of the stream or of a flush; a call with Z_FINISH that needs more space has made progress |
| Stored.Storer.OneCall | Sources/CNIOExtrasZlib/deflate.c:1000-1220 | a call of deflate at level 0 sends what is pending first; with Z_FINISH and any space it sends more of the input or leaves less pending |
| Stored.StoreAll | Sources/CNIOExtrasZlib/deflate.c:1668-1848 | a whole run at level 0, input in any portions and any space above 0 in each call: the output is a chain of stored blocks that hold exactly the input, of which the last is marked; each other one holds at least the lesser of the window size and the pending buffer less 6, so there are few |
| Stored.PiecesRead | Sources/CNIOExtrasZlib/trees.c:860-868 | stored blocks are read back as their bytes |
| Feeding.OkStep | Sources/CNIOExtrasZlib/inflate.c:474-1123 | every state that a step leads to has its lengths, distances and codes in range |
| Feeding.StepFed | Sources/CNIOExtrasZlib/inflate.c:392-463 | a step that can be taken is the same whatever input follows |
| Feeding.SplitIndependent | Sources/CNIOExtrasZlib/inflate.c:392-463 | where the machine comes to rest (output, mode, unused bits) depends on all of the input, not on its division |
| Feeding.StoppedEarly | Sources/CNIOExtrasZlib/inflate.c:392-463 | a run that has stopped for want of space has put out a prefix |
| BitReader.BitReader.NeedBits | Sources/CNIOExtrasZlib/inflate.c:327-347 | bits come from the input in order, at most 7 more than asked for, and none is lost when the input ends |
| BitReader.BitReader.TakeBits | Sources/CNIOExtrasZlib/inflate.c:349-360 | the value is that of the first n bits, and exactly they are dropped |
| SymbolReader.Decode | Sources/CNIOExtrasZlib/inflate.c:924-942 | a symbol is read by pulling just enough bytes; at most 7 bits stay in the accumulator; if the input ends first nothing is lost |
| SymbolReader.MayWait | Sources/CNIOExtrasZlib/inffast.c:25-31 | n bits can be too few for a symbol just when some symbol of the code has more, so 8 bits can be held at the entry of inflate_fast just with codes that have a symbol of 9 bits or more |
| Ring.Ring.UpdateWindow | Sources/CNIOExtrasZlib/inflate.c:252-296 | the ring buffer holds the last 32K of all output, if it held the last of the output before |
| Ring.Ring.GetDictionary | Sources/CNIOExtrasZlib/inflate.c:1167-1185 | the dictionary is the end of the output, in order |
| Inflate.Inflater.DoType | Sources/CNIOExtrasZlib/inflate.c:708-746 | a block header moves the machine as the format says; it waits only for lack of bits |
| Inflate.Inflater.DoStored | Sources/CNIOExtrasZlib/inflate.c:747-761 | the length and its complement are checked, after the byte boundary |
| Inflate.Inflater.DoCopy | Sources/CNIOExtrasZlib/inflate.c:765-781 | as many stored bytes as there are and fit are copied |
| Inflate.Inflater.DoTable | Sources/CNIOExtrasZlib/inflate.c:782-801 | the three counts, and the check on them |
| Inflate.Inflater.DoLenLens | Sources/CNIOExtrasZlib/inflate.c:802-823 | the code-length code, accepted just when the format accepts it |
| Inflate.Inflater.DoCodeLens | Sources/CNIOExtrasZlib/inflate.c:824-910 | all code lengths with their repeats, resumable after each code, then both tables |
| Inflate.Inflater.BothTables | Sources/CNIOExtrasZlib/inflate.c:885-909 | the two decoding tables stand one after the other in codes[], neither damaging the other |
| Inflate.Inflater.DoLen | Sources/CNIOExtrasZlib/inflate.c:914-963 | the branch on a table entry's operation bits goes where the symbol says |
| Inflate.Inflater.DoLenExt | Sources/CNIOExtrasZlib/inflate.c:964-974 | the length gets its extra bits, if they are there |
| Inflate.Inflater.DoDist | Sources/CNIOExtrasZlib/inflate.c:975-1002 | the distance code, likewise |
| Inflate.Inflater.DoDistExt | Sources/CNIOExtrasZlib/inflate.c:1003-1019 | the distance gets its extra bits |
| Inflate.Inflater.DoMatch | Sources/CNIOExtrasZlib/inflate.c:1020-1065 | bytes from the ring buffer or from the output are those of the copy, part by part; a distance is refused just when it goes beyond all output |
| Inflate.Inflater.DoCheck | Sources/CNIOExtrasZlib/inflate.c:1072-1095 | the check value covers all output and is compared with the trailer |
| Inflate.Inflater.WindowMatch | Sources/CNIOExtrasZlib/inffast.c:177-230 | the three-way copy (end of the window, around it, within it), its tail from the output and the three-fold loop put out the bytes of the match |
| Inflate.Inflater.FastStep | Sources/CNIOExtrasZlib/inffast.c:103-278 | one symbol, or a length with its distance, decoded without looking at how much input there is: six bytes suffice and 258 bytes of output are not exceeded; same steps as the slow states |
| Inflate.Inflater.InflateFast | Sources/CNIOExtrasZlib/inffast.c:50-305 | under its entry conditions the result is one that the format's machine comes to, in LEN, TYPE or BAD; unused bytes go back, which are always bytes of this call, and at most 7 bits stay |
| FastEntry.FastWithEight | Sources/CNIOExtrasZlib/inffast.c:25-31 | two calls of inflate after which inflate_fast is entered with 8 bits in the accumulator |
| FastEntry.HeldForLonger | Sources/CNIOExtrasZlib/inffast.c:25-31 | more than 7 bits are held there only if some symbol of the block's code is longer |
| Inflate.Inflater.Leave | Sources/CNIOExtrasZlib/inflate.c:1131-1152 | window and check value are brought up to date for the next call |
| Inflate.Inflater.Inflate | Sources/CNIOExtrasZlib/inflate.c:474-1153 | one call with any input and space refines the format's machine, and returns only when that machine cannot go on without more input or space; the return value: Z_STREAM_END or Z_DATA_ERROR just in those modes, else Z_BUF_ERROR just with Z_FINISH or without any progress, and else Z_OK; only tables whose exact size exceeds the space for them keep it from that |
| Session.InflateAll | Sources/CNIOExtrasZlib/inflate.c:474-1153 | any number of calls: a run of the format's machine on the input in these portions, within the space of each; if the last call leaves space unused, the machine can go no further |
| Session.AnyDivision | Sources/CNIOExtrasZlib/inflate.c:392-463 | however the same input is divided into calls, with any output space, the result is the same as that of a run at rest, or the beginning of it |
| Session.InflateTwice | Sources/CNIOExtrasZlib/inflate.c:474-1153 | decompressing the same input in two divisions, the second with space left at the end, puts out the same, or the beginning of it if space was used up |
| Session.StreamResult | Sources/CNIOExtrasZlib/inflate.c:474-1153 | for the bits of a compressed stream, the output is always a prefix of what was compressed, and all of it when the run is at rest |
| Session.InflateStream | Sources/CNIOExtrasZlib/inflate.c:474-1153 | decompressing any encoding of blocks, in any division: always the beginning of what they stand for; with space left at the end all of it, and accepted, unless the mode is BAD, which it is just when a decoding table exceeded its space; never with stored and fixed blocks only |
| Zlib.WriteBlock | Sources/CNIOExtrasZlib/deflate.c:1598-1640 | each block is tallied, sent and flushed: its best encoding follows what was sent before |
| Zlib.WriteStream | Sources/CNIOExtrasZlib/deflate.c:981-1290 | the bytes of the blocks, each in its best encoding, and of the trailer are an encoding of the whole stream |
| Zlib.WriteAndRead | Sources/CNIOExtrasZlib/deflate.c:981-1290 | inflate reads the stream back in calls of any sizes and accepts it |
| Zlib.DeflateInflate | Sources/CNIOExtrasZlib/deflate.c:981-1290 | deflate and then inflate, in portions of any sizes at both ends, is the identity: with Z_FIXED always, otherwise where blocks have room and tables fit |
| Zlib.WhenRoomy | Sources/CNIOExtrasZlib/deflate.c:466-503 | the blocks of any run have room with Z_HUFFMAN_ONLY and Z_RLE from memLevel 3, and with memLevel 7 and more unless a Huffman tree is too deep |
| Zlib.FewSymbols | Sources/CNIOExtrasZlib/deflate.c:466-503 | however data is cut into blocks by Z_HUFFMAN_ONLY or Z_RLE, they have room |
| Zlib.LittleData | Sources/CNIOExtrasZlib/deflate.c:466-503 | so do those of little data, up to 16098 bytes with the default memLevel, whatever the strategy |
| Adler.NoOverflow | Sources/CNIOExtrasZlib/adler32.c:10-12 | NMAX bytes keep both unreduced sums below 2^32, from any 16-bit start |
| Adler.Accumulate | Sources/CNIOExtrasZlib/adler32.c:84-100 | the unrolled loops compute the unreduced sums, without overflow |
| Adler.Adler32z | Sources/CNIOExtrasZlib/adler32.c:61-125 | from any number, all three length paths extend its sums over the buffer modulo 65521, in closed form; the result is reduced just if not one byte alone was added to too large a sum, and always from a checksum: then it is that of section 8.2 of RFC 1950 |
| Adler.ChecksumIs | Sources/CNIOExtrasZlib/adler32.c:61-125 | for every buffer the low half is 1 plus the sum of the bytes, the high half n plus the sum of (n - i) times byte i, both modulo 65521 |
| Adler.WrapValue | Sources/CNIOExtrasZlib/adler32.c:10-12 | 257 bytes of 255 give 0x080f000f, where both sums have wrapped around |
| Adler.CombineIsConcat | Sources/CNIOExtrasZlib/adler32.c:133-155 | combining is the checksum of the concatenation, for all pairs of buffers |
| Adler.Adler32Combine | Sources/CNIOExtrasZlib/adler32.c:133-155 | the stepwise reductions compute the combination; a negative length gives 0xffffffff |
| Adler.CombineBuffers | Sources/CNIOExtrasZlib/adler32.c:158-164 | computing two checksums and combining them is the checksum of the whole |
| Gf2.OwnResidue | Sources/CNIOExtrasZlib/crc32.c:213-221 | every 32-bit value stands for itself modulo p: representation and reduction agree |
| Gf2.PolyVanishes | Sources/CNIOExtrasZlib/crc32.c:155-156 | the polynomial with x^32 is 0 modulo itself, so multiplying by x with the constant really reduces by p |
| Gf2.MulIsProduct | Sources/CNIOExtrasZlib/crc32.c:158-178 | the product of residues is the residue of the product of polynomials |
| GfMultiply.Multmodp | Sources/CNIOExtrasZlib/crc32.c:163-178 | for a not zero the result is a times b modulo p, and the loop ends |
| PowersOfX.MakePowers | Sources/CNIOExtrasZlib/crc32.c:258-262 | entry k is x^(2^k) modulo p |
| PowersOfX.FullTurn | Sources/CNIOExtrasZlib/crc32.c:184-195 | x^(2^32) is x modulo p, so wrapping the index into the 32 entries is right |
| PowersOfX.X2nmodp | Sources/CNIOExtrasZlib/crc32.c:184-195 | x^(n 2^k) modulo p, for all n and k |
| Crc.Combined | Sources/CNIOExtrasZlib/crc32.c:969-978 | the CRC of a concatenation from the CRCs of the parts and the length of the second |
| Crc.Combine | Sources/CNIOExtrasZlib/crc32.c:954-978 | crc32_combine gives the CRC of the concatenation, for every length; 0 for a negative one |
| CrcBraid.OneByte | Sources/CNIOExtrasZlib/crc32.c:929-929 | eight one-bit steps are a shift and one lookup |
| CrcBraid.MakeCrcTable | Sources/CNIOExtrasZlib/crc32.c:247-256 | each entry is the CRC of its byte, bit by bit |
| CrcBraid.Braid | Sources/CNIOExtrasZlib/crc32.c:461-473 | entry i of table k is the contribution of byte i, k bytes into a word, N words later |
| CrcBraid.CrcWord | Sources/CNIOExtrasZlib/crc32.c:608-613 | the CRC of the eight bytes of a word |
| CrcBraid.BraidWord | Sources/CNIOExtrasZlib/crc32.c:713-760 | the eight lookups of a word add up to its CRC, N - 1 words later |
| CrcBraid.RoundKeeps | Sources/CNIOExtrasZlib/crc32.c:688-768 | after each round the braids' registers together stand for the register that has taken all bytes so far |
| CrcBraid.Crc32z | Sources/CNIOExtrasZlib/crc32.c:626-941 | for every buffer, length and alignment, prologue, braids and tail give the bit-at-a-time CRC of section 8 of RFC 1952 |
| CrcBraid.Crc32Twice | Sources/CNIOExtrasZlib/crc32.c:626-941 | with the tables as the code makes them, the CRC of two buffers one call after the other is that of both together |
| Crc.CheckValue | Sources/CNIOExtrasZlib/crc32.c:155-156 | the digits 1 to 9 have the CRC 0xcbf43926 |

## Findings

Two statements in comments of the source do not hold as written; the model follows the code.

- `inffast.c:31` assumes fewer than 8 bits in the accumulator on entry. inflate can arrive there with more,
  left over from a symbol for which the input ended. `FastEntry.FastWithEight` does so: the seven bytes
  154, 48, 97, 194, 132, 9, 19 hold the header of a fixed block, five symbols of nine bits, and eight bits of
  a sixth; the next call with six bytes of input enters inflate_fast with those eight. This can happen just
  with codes that have a symbol of nine bits or more (`SymbolReader.MayWait`, `FastEntry.HeldForLonger`).
  What holds always, and is enough for returning unused bytes (`inffast.c:290`), is that no symbol is
  complete in the bits held whenever there are more than 7 (`SymbolReader.Scant`,
  `Inflate.Inflater.FirstTakes`).
- `trees.c:660` calls the forced symbol 0 or 1. It is 2 exactly when symbol 1 is the only one that occurs
  (`MergeTree.ForceTwo`, and `MergeTree.OnlySymbolOne` for such frequencies), as `max_code < 2` still lets
  `max_code` go up.

## Left out

- Compress.CompressBlock: for dynamic blocks the condition that no prefix of the bits reaches the next unread symbol is a precondition. `deflate.c:494-503` argues for it from an average, which does not bound every prefix. It is proved for fixed blocks, for blocks of literals or of runs, for blocks with few matches, and for memLevel 7 and more unless a Huffman tree for the block is too deep (Overlay.dfy); whether other blocks can violate it is open.
- Overlay.RoomUnlessDeep: a tree that is too deep, where build_tree's lengths are no longer the cheapest, and memLevel below 7 are not covered.
- Zlib.DeflateInflate: levels 1 to 9 with input in any portions and no flush in between; level 0 is Stored.StoreAll. Each block is flushed out completely before the next is begun, as in a run with enough output space at that point. The two bytes of the zlib header are not part of it.
- Inflate.Inflater.Inflate: the constants ENOUGH_LENS and ENOUGH_DISTS come from an exhaustive search. The run-time check is modelled, and the exact size of the table that fails it; that no complete set of lengths within 286 and 30 symbols has such a size is not proved. After a failure (ghost field `overrun`, mode BAD) nothing more is claimed of the output.
- BuildTree.BuildTree: optimality is stated for frequencies that add up to less than 2^16, where the 16-bit sums of merged nodes do not wrap. All other properties hold for any frequencies.
- Deflate.CompressAll: calls are without flush until the last; what a sync flush leaves is stated by RunLoop, but the empty block that deflate() adds after it is not part of the run.
- FlushBlock.BlockWriter.SendBlock: opt_len and static_len are integers without wrap-around; the block starts with nothing pending, as after a complete flush_pending.
- Stored.Storer.DeflateStored: the empty blocks that deflate() itself adds after a flush are not part of it, and pending bytes must have been drained, as OneCall does first; the check value that read_buf updates is not carried along here; insert, matches and high_water, which serve deflateParams and the initialisation of memory, are only bounded.
- Deflate.Deflater.FlushBlockOnly: hands over tokens and bytes, which Zlib.WriteBlock sends; avail_out is nondeterministic there, as flush_pending may use up any part of it.
- Matcher.Matcher.FillWindow: zeroing beyond the data (high_water) concerns reading initialised memory only.
- Adler.Adler32z: the null buffer, for which the result is 1, is not modelled.
- Adler.Adler32Combine: both checksums must be reduced, as those of adler32 are; from others the sums may overflow their halves.
- CrcBraid.Crc32z: the big-endian braid, the tables of `crc_big_table` and the processor-specific variants are not modelled; a word is loaded as its bytes.
- Inflate.Inflater.InflateFast: the goto to a second-level table is taken for table links, where the source tests operation bits; pointers into tables are sequences.
- The zlib and gzip headers, gzip's length check and header CRC, preset dictionaries, inflateSync, inflateMark's `back`, deflatePrime, deflateParams and deflateTune.
- Flush modes of inflate other than none and finish; TYPE and TYPEDO, COPY_ and COPY, LEN_ and LEN are one state each.
- Full flushes that clear the hash, and partial output of flush_pending between blocks in the match loops.
- detect_data_type, memory allocation, error strings, tracing, and copying of stream states.
- nioextras-crc32.h, nioextras-trees.h and nioextras-inffixed.h as data: their contents are defined by the code that generates them.
- The Swift handlers on top: framing, buffering, and event-loop plumbing.
