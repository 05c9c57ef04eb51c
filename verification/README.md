# Models of the C libraries vendored by V

The C libraries that V ships hold several algorithms that are short to run and
hard to be sure of. This project models six groups of them in Dafny and proves
what they promise.

**zlib inflate** (libbacktrace). `Bits` has bit shifts and bit reversal,
`Counting` counts occurrences, `HuffmanCode` has the canonical codes of section
3.2.2 of RFC 1951, `Deflate` the format as a decoding function over the stream's
bits. `InflateTable` builds the two-level table in place, `BitReader` is the
buffer of bits that were read ahead, `Inflate` the decoder, `Adler` the
checksum, and `StoredStream` a stream for every byte string.

**zstd tables** (libbacktrace). `FseWalk`, `FseTable` and `FseCode` are the FSE
table builder, its stride, and coding with the finished table; `HuffWeights`
completes a list of Huffman weights and fills the table.

**LZMA range decoder** (libbacktrace). `RangeDecoder` relates the 32-bit
arithmetic to exact nested intervals of numbers as long as the input.

**Sorting and lookup** (libbacktrace, stb_truetype). `BacktraceSort` and
`EdgeSort` are the two in-place quicksorts, on top of `SegmentPerm`
(permutations of a part) and `Halving` (recursion depth); `AddrLookup` is the
search in nested address ranges and the report of inlined calls.

**Fonts** (fontstash, stb_truetype). `Skyline` and `Atlas` pack rectangles,
`GlyphCache` is one font's hash-chained cache, `Texture` and `Blur` are the
texels, and `FontStash` puts them together with the renderer and an error
callback that may expand or reset the atlas; `Response` says what space its
requests make. `GlyphShape` turns TrueType points into vertices in place.
`Charstring` says what a Type 2 charstring draws, `CharstringPaths` and
`CharstringCalls` have the laws of its operators, numbers and calls, and
`CharstringRun` is the interpreter that is run once to count and once to emit.

**Concurrency** (libatomic_ops, libbacktrace). `LockTable`, `AoMalloc` and
`AppendList` are state machines over any number of threads in which each access
to shared memory is one step. `TornDouble` says exactly when the double-word
operations of `LockTable` are atomic, and `AoServed` which requests `AoMalloc`
can meet.

Machine integers are modelled by their ranges: a value that is stored in a
`uint16`, `int16` or `uint32` is proved to fit or is reduced as the C code
reduces it. Floating-point numbers of edges and charstrings are reals.

## What turned out false of the code

- A rectangle that fits the atlas can be refused: the search starts from the
  atlas's own height and width and takes only what is better
  (`Atlas.PlacedIff` gives the exact condition, `Atlas.FullHeightRefused` an
  instance).
- The address search can miss a range that holds the pc, past the end of a
  nested range (`AddrLookup.OuterTailMissed`, exact condition
  `AddrLookup.MissedIff`).
- A double-word operation at the last word of a page is guarded by the lock of
  its first word only, and is not atomic: a store to its second word can come
  between its two stores (`TornDouble.TornIsRun`, `TornDouble.TornUnexplained`).
  It is atomic in all runs if and only if its address is not the last word of a
  page (`TornDouble.AtomicIff`).
- Requests over half a chunk, which the code's own limit admits, are never met
  from the heap; a request can be met if and only if it takes at most half a
  chunk with its header (`AoServed.ServedIff`).
- The inflater does not accept every valid stream: it refuses one with more than
  30 distance codes or with codes whose tables do not fit, and it may refuse one
  whose last block ends in a code of fewer than seven bits. Otherwise it accepts
  a stream whose output has the size given (`Inflate.Inflate`).
- Of the two tests on the weights 1 in the Huffman weight list, the parity test
  can never fail (`HuffWeights.EvenOnes`).

## Model

| member | source | states |
|---|---|---|
| HuffmanCode.PrefixFree | thirdparty/libbacktrace/linux.c:1382-1400 | no word starts with the canonical codes (section 3.2.2 of RFC 1951) of two different symbols, for any lengths whose Kraft sum is at most 1 |
| HuffmanCode.EndIsKraftSum | thirdparty/libbacktrace/linux.c:1366-1505 | after each length, the canonical counter is the Kraft sum of the codes up to that length, in units of that length |
| HuffmanCode.CodeBound | thirdparty/libbacktrace/linux.c:1376-1384 | every canonical code fits in its length when the lengths fit |
| HuffmanCode.EndShr | thirdparty/libbacktrace/linux.c:1424-1444 | lengthening the counter appends zero bits, so codes of a longer length lie beyond those of a shorter one |
| Bits.RevIncCorrect | thirdparty/libbacktrace/linux.c:1446-1455 | setting the highest clear bit and clearing the bits above it is adding 1 to the bit-reversed number, modulo 2^j |
| Bits.RevAddPow | thirdparty/libbacktrace/linux.c:1482-1498 | the carry loop of the reverse addition adds 2^k to the bit-reversed number |
| InflateTable.LinkByLength | thirdparty/libbacktrace/linux.c:1337-1357 | after the counting pass, start and next list exactly the symbols of each length in rising order, and count counts them; a length over 15 is refused |
| InflateTable.FillStride | thirdparty/libbacktrace/linux.c:1410-1418 | a code is written to exactly the indices whose low bits are its reversal; it succeeds if and only if they were all free |
| InflateTable.NextCode | thirdparty/libbacktrace/linux.c:1446-1455 | the in-place reverse increment keeps code equal to the reversal of the next canonical code |
| InflateTable.FillPrimary | thirdparty/libbacktrace/linux.c:1366-1457 | for lengths that fit the first pass succeeds, and every code of at most 8 bits owns all 8-bit indices that start with it |
| InflateTable.NoClash | thirdparty/libbacktrace/linux.c:1410-1418 | the indices that start with a new code are not in use, because the codes are prefix-free |
| InflateTable.ReverseAdd | thirdparty/libbacktrace/linux.c:1479-1504 | adding a count bit by bit to a reversed code gives the reversal of the sum |
| InflateTable.FirstCodes | thirdparty/libbacktrace/linux.c:1464-1505 | the reverse addition never fails, and firstcode holds the reversed first canonical code of every length from 9 to 15 |
| InflateTable.StoreLong | thirdparty/libbacktrace/linux.c:1533-1605 | a long code gets a link in its primary slot and all matching cells of a large enough secondary table, and nothing stored before is lost |
| InflateTable.FillSecondaries | thirdparty/libbacktrace/linux.c:1515-1618 | for lengths that fit the second pass succeeds if and only if the secondary tables have room, and then every code of 9 to 15 bits is reachable through its primary slot |
| InflateTable.TableDecodes | thirdparty/libbacktrace/linux.c:2291-2308 | direct and secondary entries for all symbols make the two-level lookup return a symbol and its length on every bit stream that starts with its code |
| InflateTable.BuildTable | thirdparty/libbacktrace/linux.c:1316-1625 | when the builder succeeds no length exceeds 15, and if the Kraft sum is at most 1 the two-level lookup on any stream that starts with a symbol's code gives exactly that symbol and its length; lengths that fit are accepted if and only if none exceeds 15 and the secondary tables that they need fit in 512 cells |
| InflateTable.SelectSecondary | thirdparty/libbacktrace/linux.c:1539-1586 | a slot without a table gets one of the length at hand if the offset can be stored, one with a table keeps it if it is large enough, and nothing else is accepted |
| InflateTable.CanSelect | thirdparty/libbacktrace/linux.c:1545-1584 | when the needed tables have room a long code always finds its slot free, or a large enough table in it |
| InflateTable.NoClashLong | thirdparty/libbacktrace/linux.c:1592-1602 | the cells that a long code selects are not in use, because the codes are prefix-free and the tables of different slots do not overlap |
| InflateTable.SlotStarted | thirdparty/libbacktrace/linux.c:1515-1618 | in the end exactly the primary slots that some long code selects have a secondary table, of the size of their longest code |
| InflateTable.AllStarted | thirdparty/libbacktrace/linux.c:1515-1618 | the secondary tables take in total exactly the space that the lengths need |
| InflateTable.NineHasRoom | thirdparty/libbacktrace/linux.c:1641-1671 | codes of at most nine bits, such as the fixed ones, always have room |
| BitReader.FetchBits | thirdparty/libbacktrace/linux.c:1083-1132 | the buffer still denotes the same unread bits; it succeeds exactly when 15 bits are held or 4 bytes are left, so always with 39 bits left, and then 15 bits are held |
| BitReader.ConsumeDenotes | thirdparty/libbacktrace/linux.c:2297-2308 | dropping k held bits moves the denoted position by k |
| Inflate.DecodeSymbol | thirdparty/libbacktrace/linux.c:2288-2308 | a table lookup followed by a shift yields the symbol that the bits start with, and the buffer then denotes the bits after its code |
| Inflate.LengthFormula | thirdparty/libbacktrace/linux.c:2335-2363 | the shift formula for match lengths is the table of section 3.2.5 of RFC 1951 |
| Inflate.DistFormula | thirdparty/libbacktrace/linux.c:2417-2436 | the shift formula for match distances is the table of section 3.2.5 of RFC 1951 |
| Inflate.ReadLength | thirdparty/libbacktrace/linux.c:2335-2363 | a length symbol and its extra bits give the length that the format defines, at the right next position, and no length is refused while the input goes on for 39 bits |
| Inflate.ReadDistance | thirdparty/libbacktrace/linux.c:2365-2436 | a distance symbol and its extra bits give the distance that the format defines, at the right next position, and no valid one is refused while the input goes on for 39 bits |
| Inflate.CopyMatchTo | thirdparty/libbacktrace/linux.c:2453-2470 | the chunked copy equals the byte-by-byte out[i] = out[i - dist], also when source and destination overlap |
| Inflate.CopyMatchAdd | thirdparty/libbacktrace/linux.c:2460-2469 | a match can be copied in two parts of any sizes |
| Inflate.FillLast | thirdparty/libbacktrace/linux.c:2390-2409 | filling with the last byte equals a match at distance 1 |
| Inflate.DataEnds | thirdparty/libbacktrace/linux.c:2281-2474 | the data of a valid block ends with the code of symbol 256, after everything else that was read |
| Inflate.DecodeItem | thirdparty/libbacktrace/linux.c:2281-2473 | one turn of the main loop takes exactly one literal, end marker or match of the format, and refuses no valid one that leaves room for a refill before the code of symbol 256 and fits in the output |
| Inflate.InflateData | thirdparty/libbacktrace/linux.c:2281-2474 | the main loop produces the decoding of the compressed data of a block, and its position; it refuses no valid data whose last code leaves room for a refill and whose output fits |
| Inflate.ReadRun | thirdparty/libbacktrace/linux.c:2139-2248 | codes 16, 17 and 18 append the run that the format defines, and fail only where the format has none or the run is too long |
| Inflate.ReadCodeLengthLengths | thirdparty/libbacktrace/linux.c:1969-2098 | the 3-bit lengths are stored in the permuted order of the format; it fails only near the end of the input |
| Inflate.ReadCodeLengths | thirdparty/libbacktrace/linux.c:2104-2254 | the run-length coded code lengths are those that the format defines, and no valid list is refused that leaves room for a refill |
| Inflate.ReadDynamicLengths | thirdparty/libbacktrace/linux.c:1948-2254 | a valid header with at most 30 distance codes is accepted if room for a refill is left, and gives the two lists of lengths that the format defines |
| Inflate.InflateDynamic | thirdparty/libbacktrace/linux.c:1938-2474 | a dynamic block decodes as the format defines, header included; a valid one is accepted only if it has at most 30 distance codes and both codes have room for their tables, and then always if a refill is possible before its last code |
| Inflate.InflateStored | thirdparty/libbacktrace/linux.c:1876-1929 | a stored block, after backing up over whole bytes read ahead, copies exactly its bytes; every valid one that fits in the output is accepted |
| Inflate.InflateBlock | thirdparty/libbacktrace/linux.c:1864-2474 | each of the three block types decodes as the format defines, type 3 is refused, and a valid block is accepted if its codes can be handled and a refill is possible before its last code |
| Inflate.NextFetchable | thirdparty/libbacktrace/linux.c:1857-1863 | no refill fails in a valid stream before its last block, nor in the last one unless its code of symbol 256 has fewer than seven bits |
| Inflate.InflateBlocks | thirdparty/libbacktrace/linux.c:1853-2475 | blocks are read until one is marked last; valid blocks whose codes can be handled are all accepted |
| Inflate.CheckHeader | thirdparty/libbacktrace/linux.c:1806-1843 | the tests accept the two header bytes if and only if the format allows them |
| Inflate.InflateStream | thirdparty/libbacktrace/linux.c:1806-1852 | a stream is refused when its header is not one that the format allows, and decoded otherwise |
| Inflate.BuildFixedTables | thirdparty/libbacktrace/linux.c:1636-1700 | the two fixed tables, built as the generator program builds them, are accepted and decode the fixed codes of section 3.2.6 of RFC 1951 |
| Inflate.Inflate | thirdparty/libbacktrace/linux.c:1789-2484 | when a single zlib stream is valid and the inflater succeeds, the whole output buffer is its decoding as RFC 1950 and RFC 1951 define it; it succeeds if and only if the output has the size of the decoding and every dynamic block has at most 30 distance codes and room for its tables, given sizes below 2^32 and a last block that is not dynamic or has at least seven bits for symbol 256 |
| Inflate.InflateAndVerify | thirdparty/libbacktrace/linux.c:2616-2626 | as Inflate, and a valid stream is then accepted if and only if the last four bytes are the Adler-32 checksum of its decoding |
| StoredStream.StreamDecodes | thirdparty/libbacktrace/linux.c:1789-2626 | every byte string, written in stored blocks with header and checksum, is a valid stream of that string that meets all conditions of InflateAndVerify |
| Deflate.FixedCodesFit | thirdparty/libbacktrace/linux.c:1641-1671 | the fixed codes have a Kraft sum of at most 1, so the table theorem applies to them |
| Deflate.LengthsTile | thirdparty/libbacktrace/linux.c:2335-2363 | the length symbols leave no length from 3 to 258 out and give none twice, but for 258 |
| Deflate.DistancesTile | thirdparty/libbacktrace/linux.c:2417-2436 | every distance from 1 to 32768 has exactly one symbol |
| Deflate.OrderPermutes | thirdparty/libbacktrace/linux.c:1969-2098 | the order of the code length lengths is a permutation |
| Deflate.RunRanges | thirdparty/libbacktrace/linux.c:2139-2248 | runs of zeros have 3 to 10 or 11 to 138 places, copies 3 to 6 |
| Adler.NoOverflow | thirdparty/libbacktrace/linux.c:2511-2602 | for at most 5552 bytes after a reduction, which is as many as any loop adds before the next one, both sums are below 2^32 |
| Adler.ComputeSums | thirdparty/libbacktrace/linux.c:2506-2602 | the batched loops compute the sums that section 2.2 of RFC 1950 defines byte by byte modulo 65521, in 32-bit variables |
| Adler.VerifyChecksum | thirdparty/libbacktrace/linux.c:2490-2611 | succeeds if and only if the four bytes are the big-endian checksum of the data |
| FseWalk.PosInjective | thirdparty/libbacktrace/linux.c:2898-2914 | the stride is coprime to the table size: fewer steps than the table has cells never reach a cell twice |
| FseWalk.PosReturns | thirdparty/libbacktrace/linux.c:2915-2919 | as many steps as the table has cells lead back to cell 0 |
| FseWalk.PosSurjective | thirdparty/libbacktrace/linux.c:2901-2914 | every cell is reached |
| FseTable.PlaceLow | thirdparty/libbacktrace/linux.c:2881-2896 | symbols with count -1 take one cell each from the end of the table |
| FseTable.SpreadSymbols | thirdparty/libbacktrace/linux.c:2898-2919 | the walk fills every remaining cell exactly once, in stride order, and ends at cell 0 |
| FseTable.AssignStates | thirdparty/libbacktrace/linux.c:2921-2942 | every cell gets the bits and base of its symbol's next state number |
| FseTable.BuildFse | thirdparty/libbacktrace/linux.c:2870-2945 | for every normalised count array (sum 2^k, k from 5 to 9, -1 counting as 1) the builder succeeds, every cell is filled once with the right multiplicities, and cells are numbered in order |
| FseCode.RangesPartition | thirdparty/libbacktrace/linux.c:2921-2942 | for every symbol of a finished table and every value below 2^k exactly one of the symbol's cells has the value in [base, base + 2^bits) |
| FseCode.RoundTrip | thirdparty/libbacktrace/linux.c:2921-2942 | decoding with a finished table gives back every encoded message, the last state and the bits that follow (section 4.1 of RFC 8878) |
| HuffWeights.SumWeights | thirdparty/libbacktrace/linux.c:3585-3600 | a weight over 12 is refused; otherwise the marks count each weight and the mask is the sum of 2^(w-1) |
| HuffWeights.LastWeight | thirdparty/libbacktrace/linux.c:3602-3643 | the deduced weight completes the sum to the next power of two; it succeeds if and only if the mask is positive, of at most 11 bits, and the rest is a power of two |
| HuffWeights.FirstEntries | thirdparty/libbacktrace/linux.c:3651-3666 | the marks become the first entry of each weight's part of the table |
| HuffWeights.FillTable | thirdparty/libbacktrace/linux.c:3668-3686 | each symbol is written to its own run and to nothing else |
| HuffWeights.BuildHuffTable | thirdparty/libbacktrace/linux.c:3585-3690 | succeeds if and only if the weight list is acceptable, and then the table holds for every symbol its run of 2^(w-1) entries |
| HuffWeights.RunsDisjoint | thirdparty/libbacktrace/linux.c:3668-3686 | no entry belongs to the runs of two symbols |
| HuffWeights.RunsCover | thirdparty/libbacktrace/linux.c:3668-3686 | every entry of a complete table belongs to some symbol's run |
| HuffWeights.StartAligned | thirdparty/libbacktrace/linux.c:3680-3684 | a run of 2^(w-1) entries starts at a multiple of its size |
| HuffWeights.OwnsIffCode | thirdparty/libbacktrace/linux.c:3676-3685 | an entry is in a symbol's run exactly when its high bits are the symbol's code: the table is a prefix code |
| HuffWeights.EvenOnes | thirdparty/libbacktrace/linux.c:3645-3649 | a complete weight list always has an even number of weights 1, so only the test for at least two of them can fail |
| HuffWeights.EntryDecodes | thirdparty/libbacktrace/linux.c:3676-3685 | every table entry decodes to the one symbol whose code the entry's high bits are, with the right length |
| RangeDecoder.Start | thirdparty/libbacktrace/linux.c:5835-5850 | the decoder starts tracking the input's value in the full interval, and the code is below the range unless it is the largest number |
| RangeDecoder.BoundShare | thirdparty/libbacktrace/linux.c:5398-5412 | with a probability from 31 to 2017, each bit gets at least 31 of the 2048 shares of any range |
| RangeDecoder.BoundInside | thirdparty/libbacktrace/linux.c:5398-5412 | the bound divides a range of at least 2^11 in two non-empty parts, and one of at least 2^24 in parts larger than 2^16, for probabilities from 31 to 2017 |
| RangeDecoder.Normalize | thirdparty/libbacktrace/linux.c:5366-5384 | normalising keeps the code equal to the bytes read minus the interval's low end, and one byte restores the range to 2^24 while input lasts |
| RangeDecoder.Bit | thirdparty/libbacktrace/linux.c:5389-5412 | a bit narrows the interval to the part that holds the code, keeps the code below the range, and changes only its own probability, which stays in [31, 2017] |
| RangeDecoder.AdaptLaws | thirdparty/libbacktrace/linux.c:5402-5409 | a 0 closes the gap to 2048 by one 32nd rounded down, a 1 takes one 32nd off, the two mirror each other, and 2017 and 31 are the exact fixed points between them |
| RangeDecoder.Adapt | thirdparty/libbacktrace/linux.c:5402-5409 | an adapted probability stays in [31, 2017] |
| RangeDecoder.BoundProportion | thirdparty/libbacktrace/linux.c:5398-5400 | a 0 gets the part of the range that its probability says, in 2048ths, but for rounding |
| RangeDecoder.OneBit | thirdparty/libbacktrace/linux.c:5398-5412 | exactly one of the two bits has a subinterval that holds the input |
| RangeDecoder.DecodesIff | thirdparty/libbacktrace/linux.c:5389-5412 | for every context model, a bit string's exact nested interval holds the input if and only if it is the string that the decoder reads |
| RangeDecoder.TreeTouches | thirdparty/libbacktrace/linux.c:5425-5434 | a tree read leaves every probability outside its tree alone |
| RangeDecoder.ReadInteger | thirdparty/libbacktrace/linux.c:5417-5436 | a tree read returns the decoded bits, most significant first, below 2^bits, touches only its own tree, and leaves the range above 2^16 while input lasts if it was so before |
| RangeDecoder.ReadReverseInteger | thirdparty/libbacktrace/linux.c:5441-5464 | as ReadInteger, least significant bit first |
| AppendList.SwapKeeps | thirdparty/libbacktrace/base.c:5182-5205 | a compare-and-swap at the end of the list publishes the node, one that lost the race publishes nothing and walks again from the head |
| AppendList.StepKeeps | thirdparty/libbacktrace/base.c:5182-5205 | every step of every thread keeps the list a duplicate-free chain, a link that is set never changes, and the order of publication only grows |
| AppendList.RunKeeps | thirdparty/libbacktrace/linux.c:686-724 | the invariant holds after every run with any number of threads; the same protocol appends symbol tables |
| AppendList.ListIsLog | thirdparty/libbacktrace/base.c:5182-5205 | following the links from any node visits exactly the nodes published after it, in order, so the list is acyclic and holds each node once |
| AppendList.ReaderSeesAllBefore | thirdparty/libbacktrace/base.c:5070-5088 | in every run, a reader that reached the end saw every node published before it started, none twice, and only nodes that are in the list |
| BacktraceSort.Partition | thirdparty/libbacktrace/base.c:5800-5822 | the part is rearranged around its middle element: strictly smaller ones before it, the others after it |
| BacktraceSort.QSort | thirdparty/libbacktrace/base.c:5792-5840 | for every total preorder the part ends sorted, is a permutation, nothing outside it changes, and the recursion is at most log2(count) deep |
| BacktraceSort.PassKeeps | thirdparty/libbacktrace/base.c:5824-5840 | sorting the smaller side leaves only pairs inside the larger side to be put in order |
| AddrLookup.CompareIsOrder | thirdparty/libbacktrace/base.c:2101-2119 | the comparison of ranges is a total preorder, and only equal ranges of equally named functions tie |
| AddrLookup.FinishTable | thirdparty/libbacktrace/base.c:4582-4608 | sorting the ranges and writing the sentinel after them makes a searchable table of the same ranges |
| AddrLookup.BSearch | thirdparty/libbacktrace/base.c:4726-4732 | the comparison used for the binary search is monotone over a table, so an entry that compares equal is found if there is one |
| AddrLookup.FindRange | thirdparty/libbacktrace/base.c:4726-4757 | binary search and the walks forward and back return what a linear scan would: among the ranges with the greatest low not above pc the one with the smallest high above pc, or none when there is none |
| AddrLookup.WalkBack | thirdparty/libbacktrace/base.c:4742-4757 | the walk back over equal starts finds the innermost range that holds pc, or shows that there is none |
| AddrLookup.ReportInlined | thirdparty/libbacktrace/base.c:4709-4778 | the callback sees the calls inlined at pc innermost first, each at the place where the one before it was called, up to the first non-zero answer, and the caller gets the outermost call site |
| AddrLookup.ChainUnique | thirdparty/libbacktrace/base.c:4709-4778 | the chain of inlined functions is determined by the function and pc |
| AddrLookup.OuterTailMissed | thirdparty/libbacktrace/base.c:4734-4757 | a concrete table in which a range holds pc but the search reports none, because a nested range ended before pc |
| AddrLookup.MissedIff | thirdparty/libbacktrace/base.c:4734-4757 | at or past some range's start, the search reports none if and only if the ranges with the greatest low not above pc have all ended by pc |
| Skyline.RaiseTiled | thirdparty/fontstash/fontstash.h:644-668 | inserting a segment and cutting those in its shadow leaves a tiling of the atlas, raised over the new segment's columns only |
| Skyline.MergeAtTiled | thirdparty/fontstash/fontstash.h:670-676 | merging neighbours of one height changes neither the tiling nor any column's height |
| Skyline.MergedUnique | thirdparty/fontstash/fontstash.h:670-676 | the heights determine a skyline without equal neighbours |
| Atlas.PackStep | thirdparty/fontstash/fontstash.h:644-679 | a rectangle put on the skyline stays inside and apart from all others when the skyline is raised to its top |
| Atlas.Atlas.Expand | thirdparty/fontstash/fontstash.h:622-629 | growing the atlas keeps everything packed and every old column's height |
| Atlas.Atlas.Reset | thirdparty/fontstash/fontstash.h:631-642 | after a reset nothing is placed and the skyline is flat |
| Atlas.Atlas.ShrinkAfter | thirdparty/fontstash/fontstash.h:651-668 | the loop deletes or shortens exactly the segments under the new one |
| Atlas.Atlas.AddSkylineLevel | thirdparty/fontstash/fontstash.h:644-679 | the skyline stays a tiling, is raised over the rectangle's columns only, and no two neighbours have the same height |
| Atlas.Atlas.RectFits | thirdparty/fontstash/fontstash.h:681-700 | the result is not -1 if and only if the rectangle fits on segment i, and then it is the highest column under the rectangle |
| Atlas.Atlas.BestFit | thirdparty/fontstash/fontstash.h:707-720 | the chosen segment has the least pair of top and segment width among those that fit below the full height and width |
| Atlas.Atlas.AddRect | thirdparty/fontstash/fontstash.h:702-732 | succeeds if and only if the rectangle fits somewhere, except that an atlas with a flat skyline is never filled to its top; all rectangles handed out since the last reset stay inside the atlas and pairwise apart, over every run of adds and expansions |
| Atlas.RefusedFit | thirdparty/fontstash/fontstash.h:702-720 | a position that fits is passed over if and only if the rectangle would reach the top of the atlas from a segment as wide as the atlas |
| Atlas.PlacedIff | thirdparty/fontstash/fontstash.h:702-720 | the search finds a place if and only if the rectangle fits somewhere and the skyline is not a single segment from which it would reach the top of the atlas |
| Atlas.FullHeightRefused | thirdparty/fontstash/fontstash.h:702-720 | a concrete case: a rectangle as high as an empty atlas is always refused |
| GlyphCache.ChainsReachEachOnce | thirdparty/fontstash/fontstash.h:1077-1085 | every live glyph is met once by following its own bucket's links, and by no other bucket's |
| GlyphCache.ChainIsBucket | thirdparty/fontstash/fontstash.h:1079-1085 | following the links visits exactly the glyphs of the bucket in falling order, so chains are acyclic |
| GlyphCache.Find | thirdparty/fontstash/fontstash.h:1077-1085 | the chain lookup agrees with a scan of all glyphs: -1 if and only if no glyph has the key, and otherwise the only glyph that has it |
| GlyphCache.InsertKeeps | thirdparty/fontstash/fontstash.h:1131-1133 | a glyph with a new key at the head of its chain keeps all chains right and keys unique |
| Blur.SmoothBound | thirdparty/fontstash/fontstash.h:1001-1005 | the filter's accumulator never leaves the range of the values seen and its product fits in 32 bits |
| Blur.BlurLine | thirdparty/fontstash/fontstash.h:997-1015 | the two passes in place compute the line of the filter: forward and backward accumulators, both ends zero |
| Blur.PassMeans | thirdparty/fontstash/fontstash.h:1001-1013 | each pass stores the weighted mean of what came before and the texel, rounded down to 128ths, divided by 128 |
| Blur.BlurredMono | thirdparty/fontstash/fontstash.h:997-1015 | a brighter line is brighter at every texel after the blur |
| Blur.BlurredSharp | thirdparty/fontstash/fontstash.h:997-1015 | at full strength the inner texels stay as they are |
| Blur.BlurredAtMost | thirdparty/fontstash/fontstash.h:997-1015 | nothing gets brighter than the brightest texel of the line |
| Blur.BlurBlock | thirdparty/fontstash/fontstash.h:1038-1055 | the block shows the image blurred twice each way, and nothing outside it changes |
| Blur.BlurredImageMono | thirdparty/fontstash/fontstash.h:1038-1055 | a brighter image is brighter at every texel after the four passes |
| Blur.BlurredImageSharp | thirdparty/fontstash/fontstash.h:1038-1055 | at full strength the inside of the image stays as it is |
| Blur.BlurredImageEdge | thirdparty/fontstash/fontstash.h:1001-1014 | a blurred image has an empty border, whatever was in it |
| Texture.GrowRows | thirdparty/fontstash/fontstash.h:1671-1679 | the enlarged texture is the old one with zeros to the right and below |
| Texture.GrowthOk | thirdparty/fontstash/fontstash.h:1684-1693 | after an expansion only old columns below the highest segment can differ from the cleared renderer texture |
| Texture.WriteKeeps | thirdparty/fontstash/fontstash.h:1167-1170 | a write under the skyline that is added to the dirty rectangle keeps the copy right elsewhere and texels above the skyline zero |
| Texture.UploadMirrors | thirdparty/fontstash/fontstash.h:1227-1238 | uploading the dirty rectangle makes the renderer's copy equal to the texture |
| Texture.FillRect | thirdparty/fontstash/fontstash.h:742-747 | writing a block row by row sets exactly its texels |
| Texture.ClearBorder | thirdparty/fontstash/fontstash.h:1139-1148 | the two loops zero exactly the border of the block |
| FontStash.NewIsUnused | thirdparty/fontstash/fontstash.h:1107-1114 | a rectangle that was just handed out overlaps no live glyph of any font |
| FontStash.InsertGlyphOk | thirdparty/fontstash/fontstash.h:1117-1133 | storing a glyph in an unused rectangle keeps the caches of all fonts right and all live glyph rectangles disjoint |
| FontStash.Stash.constructor | thirdparty/fontstash/fontstash.h:755-811 | a new stash is valid, blank but for a white corner if that fits, and its skyline is the one over that corner |
| FontStash.Stash.AddWhiteRect | thirdparty/fontstash/fontstash.h:734-753 | with space for it a rectangle of the atlas becomes white and no other texel changes; without space nothing changes |
| FontStash.Stash.AddFont | thirdparty/fontstash/fontstash.h:899-966 | a font whose data loads is added with an empty cache, one whose data does not is not added; the stash stays valid |
| FontStash.Stash.Allocate | thirdparty/fontstash/fontstash.h:1107-1114 | a rectangle is taken if and only if one is to be had, and it is blank, below the skyline afterwards and unused |
| FontStash.Stash.Flush | thirdparty/fontstash/fontstash.h:1227-1238 | afterwards the renderer's copy equals the texture |
| FontStash.Stash.ExpandAtlas | thirdparty/fontstash/fontstash.h:1647-1701 | succeeds if and only if the renderer takes the new size or nothing has to grow; glyphs and rectangles survive, old texels keep their places, new ones are zero, and the dirty rectangle covers every difference from the cleared renderer texture; a refused resize changes nothing but the flush |
| FontStash.Stash.ResetAtlas | thirdparty/fontstash/fontstash.h:1703-1748 | succeeds if and only if the renderer takes the size; then all caches are empty and the texture is blank but for the white corner; a refused resize changes nothing but the flush |
| FontStash.Stash.HandleError | thirdparty/fontstash/fontstash.h:1109-1113 | after the callback the size and the skyline are those that the granted requests lead to one after the other, the caches are empty if a reset was granted and else as before, and without a reset all rectangles and texels survive |
| Response.SpaceAfterReset | thirdparty/fontstash/fontstash.h:1703-1748 | after a reset there is space for a rectangle if and only if it fits beside the white corner or above it |
| Response.ExpandKeeps | thirdparty/fontstash/fontstash.h:1647-1701 | an expansion takes no space away |
| Response.ExpandMakes | thirdparty/fontstash/fontstash.h:1647-1701 | the columns that a wider atlas gains have space of their own |
| Response.ResetMakesSpace | thirdparty/fontstash/fontstash.h:1109-1113 | a granted reset to a size with space, followed by no other reset, leaves space for the glyph |
| FontStash.Stash.DrawGlyph | thirdparty/fontstash/fontstash.h:1135-1170 | the rectangle shows the bitmap in the middle of zeros, blurred if there is a blur; nothing else changes and the dirty rectangle grows by it |
| FontStash.PictureMono | thirdparty/fontstash/fontstash.h:1135-1162 | a brighter bitmap gives a brighter picture, blurred or not |
| FontStash.PictureSharp | thirdparty/fontstash/fontstash.h:1135-1162 | without blur, or at full strength, the picture is the bitmap in the middle of zeros |
| FontStash.PictureEdge | thirdparty/fontstash/fontstash.h:1138-1162 | the border of every picture is empty |
| FontStash.Stash.GetGlyph | thirdparty/fontstash/fontstash.h:1057-1173 | a cached key is returned and nothing changes; a missing one is drawn into a rectangle of its own if and only if there is space, or space after what the callback asked for; the glyph is all that is added to the caches that the callback left, and with space for it no other texel changes |
| EdgeSort.MedianToFront | thirdparty/fontstash/stb_truetype.h:3424-3444 | the median of the first, middle and last element comes to the front, which leaves an element that stops the upward scan |
| EdgeSort.ScanUp | thirdparty/fontstash/stb_truetype.h:3452-3454 | the unguarded upward scan stays in bounds and stops at the first element not before the pivot |
| EdgeSort.PartitionEdges | thirdparty/fontstash/stb_truetype.h:3446-3466 | every index read is inside the part, and nothing from the cut on is before anything up to it |
| EdgeSort.QuickSort | thirdparty/fontstash/stb_truetype.h:3417-3477 | the part is permuted and the recursion is at most log2(n) deep |
| EdgeSort.InsertionSort | thirdparty/fontstash/stb_truetype.h:3399-3415 | the part ends sorted and is a permutation |
| EdgeSort.SortEdges | thirdparty/fontstash/stb_truetype.h:3479-3483 | the edges end sorted by y0 and are a permutation, with recursion at most log2(n) deep |
| GlyphShape.ContourCloses | thirdparty/fontstash/stb_truetype.h:1658-1672 | a contour starts with its only move, ends where it started, and has at most one vertex more than points |
| GlyphShape.OutlineLength | thirdparty/fontstash/stb_truetype.h:1692-1695 | a glyph has at most as many vertices as points and contours |
| GlyphShape.ContourTraces | thirdparty/fontstash/stb_truetype.h:1747-1811 | a contour is what the TrueType rules say: the way round from its start with the implied points between control points, traced by lines and curves |
| GlyphShape.ContourControls | thirdparty/fontstash/stb_truetype.h:1747-1811 | every control point of a contour is that of exactly one curve, in order |
| GlyphShape.StartPoint | thirdparty/fontstash/stb_truetype.h:1762-1794 | a contour starts at its first point on the curve, implied ones included |
| GlyphShape.MidHalf | thirdparty/fontstash/stb_truetype.h:1782-1803 | an implied point is halfway between its neighbours, rounded down |
| GlyphShape.CloseShape | thirdparty/fontstash/stb_truetype.h:1658-1672 | the contour is led back to its start, through the saved off-curve start point if there is one |
| GlyphShape.StartContour | thirdparty/fontstash/stb_truetype.h:1762-1794 | the contour starts at its first on-curve point or between its first two off-curve ones, and point i + 1 is read inside the contour |
| GlyphShape.NextPoint | thirdparty/fontstash/stb_truetype.h:1795-1808 | a point adds a line, a curve or nothing, with a midpoint between two off-curve points |
| GlyphShape.Convert | thirdparty/fontstash/stb_truetype.h:1747-1811 | decoding in the buffer that holds the points gives the outline of every contour, never overwrites a point that was not read, and emits at most n + contours vertices |
| Charstring.StepDescends | thirdparty/fontstash/stb_truetype.h:2020-2263 | every operator lowers the lexicographic measure on the bytes left in the at most 11 nested buffers, so every run ends |
| Charstring.DrawGrows | thirdparty/fontstash/stb_truetype.h:1920-1966 | drawing a path only adds vertices |
| CharstringPaths.PathIs | thirdparty/fontstash/stb_truetype.h:2044-2135 | for every path operator and operand list, the number of segments and the k-th segment are those that the Type 2 charstring format lists |
| CharstringPaths.BendTangents | thirdparty/fontstash/stb_truetype.h:2084-2098 | the k-th curve of hvcurveto starts horizontal and ends vertical for even k, the other way round for odd k, and vhcurveto the reverse; only the last one may end askew |
| CharstringPaths.OperatorMoves | thirdparty/fontstash/stb_truetype.h:2044-2135 | an operator moves the pen by the sums of the operands that the format gives to each axis, each operand used once or not at all |
| CharstringPaths.FlexReturns | thirdparty/fontstash/stb_truetype.h:2164-2243 | hflex and hflex1 come back to the starting line and are flat in the middle, flex1 comes back along the axis on which it moved less, flex moves by all its operands |
| CharstringCalls.NumberPushed | thirdparty/fontstash/stb_truetype.h:2245-2259 | a number in the shortest encoding of the format is pushed as that number, and exactly its bytes are read |
| CharstringCalls.SubrNumbers | thirdparty/fontstash/stb_truetype.h:1968-1981 | every subroutine has a number that can be pushed, in two bytes for up to 2263 of them, and no other number names one |
| CharstringCalls.MaskBytes | thirdparty/fontstash/stb_truetype.h:2029-2035 | a hint mask takes as many whole bytes as the hints declared so far need bits |
| CharstringCalls.StemsCounted | thirdparty/fontstash/stb_truetype.h:2037-2042 | every stem operator declares a hint for each pair of operands |
| CharstringCalls.CallInlines | thirdparty/fontstash/stb_truetype.h:2137-2159 | a call of a subroutine that comes to the return at its end draws what its bytes would draw in the place of the call |
| CharstringCalls.SameRun | thirdparty/fontstash/stb_truetype.h:2010-2264 | what a run draws depends only on the bytes that are left, the operands and the hints |
| CharstringCalls.GlyphCloses | thirdparty/fontstash/stb_truetype.h:1936-1954 | every contour of a glyph leads back to its start |
| CharstringRun.RunGrows | thirdparty/fontstash/stb_truetype.h:2020-2263 | so does a run, whatever is left of it |
| CharstringRun.Ctx.Add | thirdparty/fontstash/stb_truetype.h:1920-1934 | a counting context extends its bounding box and a storing one stores the vertex, and both count it |
| CharstringRun.EmitMixed | thirdparty/fontstash/stb_truetype.h:2106-2120 | rcurveline and rlinecurve draw their groups and the last segment; the later stack checks never fail |
| CharstringRun.EmitBends | thirdparty/fontstash/stb_truetype.h:2084-2098 | the loop entered in two places draws alternating curves |
| CharstringRun.EmitFlex | thirdparty/fontstash/stb_truetype.h:2164-2243 | the four flex operators draw the two curves that their operands give |
| CharstringRun.RunCharstring | thirdparty/fontstash/stb_truetype.h:2010-2264 | a run in either mode takes the path that the charstring alone determines, stays in its allocation when there is room for that path, and ends |
| CharstringRun.GetGlyphShape | thirdparty/fontstash/stb_truetype.h:2269-2284 | the emitting pass fills exactly the allocation that the counting pass sized, or the glyph is refused |
| CharstringRun.GetGlyphInfo | thirdparty/fontstash/stb_truetype.h:2286-2295 | the box is the least one that holds all vertices and control points |
| LockTable.OneLock | thirdparty/libatomic_ops/atomic_ops.c:137-139 | all words of an operation whose words are on one page hash to one lock, at whatever place in the page |
| LockTable.OneLockIff | thirdparty/libatomic_ops/atomic_ops.c:137-139 | the two words of a double operation share a lock if and only if the address is not within the last 8 bytes of a page |
| LockTable.StepKeeps | thirdparty/libatomic_ops/atomic_ops.c:193-248 | every single access of every thread keeps the refinement, as long as the words of each operation are on one page: either the abstract memory is unchanged or one operation takes effect atomically with the result that it returns |
| LockTable.RunIsSequential | thirdparty/libatomic_ops/atomic_ops.c:193-248 | in every run in which the words of each operation are on one page, the operations did what they would have done one after the other, in the order in which they returned |
| LockTable.QuietMemory | thirdparty/libatomic_ops/atomic_ops.c:193-248 | when no operation is under way the memory is that of the sequential order |
| LockTable.RunLocking | thirdparty/libatomic_ops/atomic_ops.c:148-165 | in every state of every run, on whatever addresses, each lock is held by exactly the thread that is in its section |
| TornDouble.OnePageExplained | thirdparty/libatomic_ops/atomic_ops.c:193-248 | a run that ends with no operation under way, and whose operations stay on one page each, has results and a memory that some sequential order gives |
| TornDouble.TornIsRun | thirdparty/libatomic_ops/atomic_ops.c:214-248 | for a double at the last word of any page there is a run in which a store to its second word comes between its two stores |
| TornDouble.TornUnexplained | thirdparty/libatomic_ops/atomic_ops.c:214-248 | no sequential order gives the results and the memory of that run |
| TornDouble.AtomicIff | thirdparty/libatomic_ops/atomic_ops.c:137-248 | for an aligned address, every run in which only doubles at that address may cross a page is explained by a sequential order if and only if the address is not the last word of a page |
| LockTable.MutualExclusion | thirdparty/libatomic_ops/atomic_ops.c:148-165 | at most one thread is in the section of a lock, and a waiting thread holds none, so there is no wait cycle, whatever the addresses |
| LockTable.HolderMoves | thirdparty/libatomic_ops/atomic_ops.c:203-207 | the holder of a lock can always take its next step |
| AoMalloc.StepKeeps | thirdparty/libatomic_ops/atomic_ops_malloc.c:255-428 | every step of AO_malloc and AO_free in every interleaving keeps the invariant: nothing overlaps, and every block is in the list of its size, with the program, or in the hands of the thread that is said to have it |
| AoMalloc.RunKeeps | thirdparty/libatomic_ops/atomic_ops_malloc.c:255-428 | the invariant holds after every run with any number of threads |
| AoMalloc.NoneLost | thirdparty/libatomic_ops/atomic_ops_malloc.c:376-428 | when all threads are idle, every block that is not with the program is in the list of its size |
| AoMalloc.TakeKeeps | thirdparty/libatomic_ops/atomic_ops_malloc.c:281-296 | a successful compare-and-swap hands a fresh chunk to one thread, a failed one hands out nothing |
| AoMalloc.AddKeeps | thirdparty/libatomic_ops/atomic_ops_malloc.c:307-321 | cutting a chunk puts blocks of the right size on the right list, apart from all others |
| AoMalloc.ChunksSafe | thirdparty/libatomic_ops/atomic_ops_malloc.c:255-299 | chunks are aligned, inside the heap and pairwise apart |
| AoMalloc.LiveBlock | thirdparty/libatomic_ops/atomic_ops_malloc.c:376-404 | a live block has the least power of two that holds request and header, is aligned after its header, and lies in the heap |
| AoMalloc.LiveApart | thirdparty/libatomic_ops/atomic_ops_malloc.c:376-428 | live blocks never overlap |
| AoMalloc.FreeApart | thirdparty/libatomic_ops/atomic_ops_malloc.c:301-321 | free list i holds blocks of 2^i bytes only, none overlapping a live block |
| AoMalloc.LargestServed | thirdparty/libatomic_ops/atomic_ops_malloc.c:314-320 | no request over half a chunk less its header is ever met from the heap, in any run |
| AoMalloc.FirstBlockFits | thirdparty/libatomic_ops/atomic_ops_malloc.c:312-320 | a fresh chunk has room for a first block if and only if the request and its header take at most half a chunk |
| AoServed.ServedIff | thirdparty/libatomic_ops/atomic_ops_malloc.c:255-428 | for every heap and every size, some run from the start ends with a block of that size in the hands of the program if and only if the size and its header are at most half a chunk |
| AoServed.CutUp | thirdparty/libatomic_ops/atomic_ops_malloc.c:307-321 | cutting up a chunk ends, and leaves a block on the list if the chunk has room for one |
| AoServed.Reused | thirdparty/libatomic_ops/atomic_ops_malloc.c:407-428 | a block that is freed is in its list, and some run from there gives it to the next request of its size without taking a chunk |
| AoServed.YieldsIff | thirdparty/libatomic_ops/atomic_ops_malloc.c:255-299 | some run hands out n chunks if and only if n chunks fit in the heap behind its first aligned address |
| AoMalloc.Msb | thirdparty/libatomic_ops/atomic_ops_malloc.c:323-374 | the shifts and the table give the position of the highest set bit of every 64-bit number |
| AoMalloc.LogForIsMsb | thirdparty/libatomic_ops/atomic_ops_malloc.c:385-388 | what the code computes with msb is the log of the least power of two that covers the request and its header |

## Left out

- InflateTable.BuildTable: says nothing about over-subscribed codes, some of which it accepts because the entry of symbol 0 with a code of one bit is zero.
- Inflate.Inflate: for a last block with a code of symbol 256 of fewer than seven bits, only that a success is right: whether the last refill is possible then depends on how many bits are held. Concatenated streams are not modelled: the input is one stream, and what is done with invalid ones is not stated.
- Inflate.InflateAndVerify: as Inflate.Inflate; the checksum is compared with the last four bytes of the input, wherever the stream ended.
- Inflate.BuildFixedTables: that the tables printed in the source are the generator's output is not part of this model.
- RangeDecoder.Normalize: beyond the end of the input the range is no longer restored, as in the code; the bound needs input that lasts.
- HuffWeights.BuildHuffTable: starts from the list of weights; reading it from the stream, directly or with an FSE table, is not modelled.
- GlyphShape.Convert: starts from points that were read into the buffer; expanding flags and coordinate deltas from the font's bytes is not modelled, nor are composite glyphs. Contours that the font format does not allow, a single off-curve point or ends that do not rise, are excluded, since the code does not check for them.
- CharstringRun.RunCharstring: takes the font's indexes as lists of byte strings, numbers as reals, and a CID font's subroutines as given; finding them in the font file is not modelled.
- EdgeSort.QuickSort: states no order of its own: it stops at parts of 12 edges and may leave single edges out of both sides, so only the combined sort promises one.
- AddrLookup.ReportInlined: ranges and functions are values; the tables are built elsewhere, and the C library's bsearch stands as the usual bisection.
- FontStash.Stash.GetGlyph: fonts and texture rows are values in the stash's fields, so aliasing between fonts is not captured; the bitmap, the filter strength and the callback's reaction are parameters; a negative blur and allocation failures are not modelled.
- FontStash.Stash.AddFont: whether the font's data loads is a parameter; names, metrics and failures to allocate are not modelled.
- FontStash.Renderer: the application's renderer, assumed to clear its texture when it is created or resized and to copy what it is told to.
- AoMalloc.StepKeeps: blocks and chunks that come from mmap are not modelled. The free lists are atomic stacks.
- AoServed.Reused: a run without other threads in between; another thread may take the block first.
- LockTable.StepKeeps: blocking signals is not modelled, words are 8 bytes long, and addresses are multiples of 8; that the words of each operation are on one page is needed, as TornDouble.AtomicIff shows.
- AppendList.StepKeeps: covers the threaded paths; without threads the append is a plain assignment.
- Atlas.Atlas.AddRect: node arrays are sequences, so growing their allocation, and its failure, is not modelled.
- The memory order of the atomic operations: each is one sequentially consistent step.
- CRC-32, LEB128, the LZMA container and its length decoder, whole zstd frames, the allocator with its free list, resolving overlapping units, cmap lookup, the box filters and the rectangle packer of stb_truetype, UTF-8 decoding, 128-bit division and base64.
- Rasterising, signed distance fields, curve flattening and everything else whose point is floating-point rounding.
- Loading ELF, Mach-O and DWARF files, mmap, signals, unwinding, and the wrappers of other libraries.
