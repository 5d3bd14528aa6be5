# Models of the codecs and generators under `dep/`

A Dafny 4.11 project that models the compression libraries, checksums and random number generator vendored under `dep/`, and
proves what they are relied on for. `dafny verify dfyconfig.toml` checks all of it.

- **bzip2**, both directions. Initial run-length code, the main and the fallback sorter of the rotations, move-to-front and zero
  runs, choice of Huffman tables, canonical codes, the bit stream, and their inverses in the FAST and the SMALL decoder, each as
  loops over arrays and fields proved against a specification. They compose to one statement, `Bzip2.RoundTrip`: whatever is compressed, in whatever
  calls, is what decompression puts out. The decoder is specified on every bit string, not only on what the encoder writes:
  `StreamReader.Decompress` agrees with that specification whatever comes in. Which blocks the compressor makes of its input is
  told in `BlockDivision`. `Bzip2` is the place to start reading;
  `RunEncoder` and `BlockEncoder`, `StreamReader` and `BlockDecoder` are the layers below it, and `StreamCodec` joins them.
- **zlib's LZ77 layer.** The sliding window, hash chains that survive slides, the match search that leaves out one comparison,
  the parsers `deflate_stored`, `deflate_fast`, `deflate_slow`, `deflate_rle` and `deflate_huff`, and the calls of `deflate`
  with all that they refuse (`Deflate`, with `Deflate.Run` over whole runs). What the parsers decide is told in `ParseRules`
  without tables, from what has been read and which strings have been inserted, and every run goes by those rules.
  `inflate_fast` with its bit buffer and circular window (`InflateFast`, `InflateWindow`), and the states of `inflate` between
  the items of a block (`InflateSteps`). The two sides are joined over any calls at all in `InflateCalls.CallsRestore`, and
  down to the bits of the format in `SymbolBits.BitsCarry`.
- **CRC-32.** Polynomial arithmetic, the tables, the word-at-a-time and N-braid forms in both byte orders, and combination
  (`Gf2` up to `Crc32`). N and W are parameters. `CrcLaws` tells what a CRC is without its register, and `BlockCheck` that the
  check of a bzip2 block, with the table of the program, is the same CRC with its bits in the other order.
- **Adler-32** (`Adler32`). Deferred reduction, reduction by shifts, combination.
- **SFMT** (`Sfmt`). Serial and bulk generation from an uninterpreted recursion, and the period certification.

Where a library works in place, the model does: C structures whose fields are updated are classes, buffers are arrays, loops are
loops. Fields and parameters marked `ghost` carry what a proof speaks of and no more. Words are unbounded numbers where the
source's values provably fit theirs, and bit vectors or explicit remainders where wrapping matters.

How some things are modelled:

- A bzip2 decoder call that runs out of input returns and is called again with the next chunk. `BlockReader.Source` holds the
  chunks of the calls to come and goes on at the point where reading stopped, so chunking is arbitrary. In the same way the
  room that each output call finds is arbitrary.
- A call of `deflate` finds no room for output, some, or more than it will use. With some room it is nondeterministic when the
  output is full and whether bytes that wait fit it; when a block of symbols is full is nondeterministic always.
- The comment in `inffast.c` says that `inflate_fast` is entered with fewer than eight bits in its buffer. `inflate` may enter
  it with up to fourteen, where a codeword was cut off by the end of the input. The model follows the code; the next item then
  takes more bits than were there, so no byte of an earlier call is given back (`InflateFast.LongItem`).
- In `fallbackSort` the block's bytes and the class array are one memory in the source. The model has two arrays and forgets
  the bytes once classes overwrite them, so that the bytes found there at the end are those that were rebuilt.
- `ptr` and `mtfv` share memory in the source, a pointer taking the place of two symbols. The model's array holds halves of
  pointers; `BlockEncoder.AsHalves` is the change of view.
- `mainSort` works in one array with the block and its quadrants one behind the other; the model has two arrays, of the sizes
  the source uses. Its unrolled comparisons and counting loops are loops here, `CopyScan` holds the reasoning about the scan of a
  sorted bucket, and marks in the table of bucket starts are sums.
- A comment in `blocksort.c` says that a smaller quadrant means a rotation that comes before. Equal rotations of a periodic block
  get different quadrants, so what `MainCompare.Hinted` says, and what the sort relies on, is that the rotation does not come after.
- Another comment there says that the compressed stream is the same whichever sorter is used. Of the last column that is true
  (`SortedOrders.SameColumn`). The row of the block is fixed by sorting if and only if the block is not a repetition of a shorter
  string (`SortedOrders.RowForcedIff`); otherwise it is up to the sorter, and every choice decodes to the same block.
- A CRC word of W octets is a sequence of octets, the lowest first.
- SFMT's 32-bit words are sequences of 32 bits, and `do_recursion` is a parameter of which nothing is assumed.
- `dep/zlib/deflate.c` and `dep/bzip2/compress.c` unroll loops by hand. The model has the loops, with the bound checked as
  rarely as the source does where that matters.
- `decompress.c` stores selectors in arrays of 18002 places without comparing their number with that size. In the model storing
  behind the end is an outcome of its own, `Overran`, at which a call ends; what C would do afterwards is not defined.

Three things that one would like to say of the source hold only under a condition, and the model gives it exactly. Reading
the selectors of a block stays within their arrays unless more than 18002 are announced and one more arrives than fits
(`BlockFormat.SelectorsOverrun`); what the encoder writes always stays within. `adler32_z` on a single byte does not reduce
a second sum that came in unreduced and stays at or above twice the base (`Adler32.Overfull`); and the subtractions in
`adler32_combine_` suffice only as long as the sums of the first checksum are not too large (`Adler32.Enough`), which
reduced sums never are.

## Model

| member | source | states |
|---|---|---|
| Bzip2.RoundTrip | dep/bzip2/bzlib.c:407-464 | For every input, every cutting of it into calls, every flush or finish among them and every output room: the compressor reaches the end of the stream once its last request is repeated with some room, and the decompressor, in its FAST and in its SMALL form and under any cutting of the compressed bytes, puts out exactly the input that was accepted. Calls are accepted at least up to the first flush or finish. |
| StreamReader.Decompress | dep/bzip2/bzlib.c:808-858 | On EVERY bit string, in the FAST and in the SMALL form: it puts out what the specification reads and leaves the bits behind it, or ends as the specification says: with a data error, for want of input, or by overrunning the selector arrays. However it ends, the bytes put out by then are exactly those the specification says: the texts of the good blocks, and all of the bad one if its column could be read. |
| StreamReader.BlocksOutIs | dep/bzip2/bzlib.c:808-858 | Nothing that is put out is taken back, and all that is put out of a good stream is its text. |
| StreamReader.DecompressBlock | dep/bzip2/decompress.c:224-584 | On every bit string, randomised blocks included: a block is read, put out and checked as the specification says, the check returned is that of its text, and what is put out is its column's text even if the check fails. |
| StreamReader.CheckTrailer | dep/bzip2/decompress.c:582-606 | On every bit string the trailer is accepted exactly when its magic number and the stored combined check are right. What the combined check is `BlockCheck.CombinedBit` tells. |
| StreamCodec.StreamRead | dep/bzip2/bzlib.c:808-858 | The bits of header, written blocks and trailer are read as the texts of the blocks, every check passes, and the bits after the stream are left. |
| StreamCodec.HeaderRead | dep/bzip2/decompress.c:197-209 | A stream header is read back as its block size, and reading is then at the first block. |
| StreamCodec.BlockTextIs | dep/bzip2/decompress.c:224-584 | A written block is read as the text of its bytes; it is not taken for corrupt and passes its check. |
| StreamCodec.BlockNext | dep/bzip2/decompress.c:222-264 | At a block that was written, what is read is its text, its check enters the combined one, and reading goes on at the next block. |
| StreamCodec.TrailerNext | dep/bzip2/decompress.c:582-606 | After the last block the trailer is read, the combined check is that of all blocks, and the texts of all blocks are out. |
| StreamFormat.StreamBegins | dep/bzip2/compress.c:623-662 | The first ten bytes of every stream: "BZh", the digit of the block size, and the magic number of a block, or of the trailer if there is no block. |
| BlockCheck.EntryIs | dep/bzip2/crctable.c:31-99 | Every one of the 256 entries of the table is what the octet with its bits reversed contributes to a CRC-32, reversed again. |
| BlockCheck.CheckIsCrc | dep/bzip2/bzlib_private.h:157-172 | With the table of the program the check of a block is the CRC-32 of its text, the most significant bit first: the CRC of zlib's model of the octets with their bits reversed, itself reversed. |
| BlockCheck.CombinedBit | dep/bzip2/compress.c:607-608 | Bit j of the combined check is set if bit (j - (n - 1 - i)) mod 32 of the check of block i is set for an odd number of the n blocks: every check is rotated once for each block after it. |
| CheckBits.ReversedBit | dep/bzip2/crctable.c:31-99 | Bit j of a reversed word is bit 31 - j of the word. |
| BlockEncoder.SortBlock | dep/bzip2/blocksort.c:1031-1089 | For every work factor and every block the rotations come out sorted, and with them the row of the block: from the fallback sorter below 10000 bytes and where the budget was used up, otherwise from the main sorter. |
| MainSort.SortRotations | dep/bzip2/blocksort.c:751-1010 | Unless the budget is used up, `ptr` ends as the sorted rotations, for periodic blocks too; the block is left as it is. The budget is only spent on rotations that agree in 20 bytes: where no two do, it stays as it was and the sort is complete. |
| MainSort.SortBigBucket | dep/bzip2/blocksort.c:868-1007 | The three steps for one big bucket keep the invariant: rows in their buckets, marked buckets sorted, marks exactly where one of the two bytes is done, quadrants that may be relied on. |
| MainSort.SortSmallBuckets | dep/bzip2/blocksort.c:878-908 | After step 1 all small buckets of the big one but that of the doubled byte are sorted and marked, and no others become marked. |
| MainSort.ScanBigBucket | dep/bzip2/blocksort.c:911-944 | Step 2 puts the bucket of the bytes c and ss in order for every c not done, the doubled byte included, without comparing; all other rows stay where they are, and the assertion that the two scans have met holds. |
| MainSort.UpdateQuadrants | dep/bzip2/blocksort.c:990-1004 | Step 3 keeps the quadrants, also those behind the block, such that of two places with the same byte the one with the smaller quadrant does not start a greater rotation; 16 bits always suffice. |
| MainSort.HintsKept | dep/bzip2/blocksort.c:962-990 | Quadrants that rise with the place in a sorted bucket may be relied on, together with those of the buckets done before, even after shifting. |
| MainSort.BucketRearranged | dep/bzip2/blocksort.c:886-903 | Sorting inside a small bucket keeps every row in the bucket of its first two bytes. |
| MainSort.AllDone | dep/bzip2/blocksort.c:865-1008 | When every big bucket is done the rows are the sorted rotations. |
| CopyScan.ScanEnds | dep/bzip2/blocksort.c:912-944 | When the scan has come to its end from both sides, the rows are a permutation in their buckets, those copied are in order, and the two halves have met, or the block is one byte over and over and the whole of it is between them: the source's assertion 1007. |
| CopyScan.EmittedKeeps | dep/bzip2/blocksort.c:923-934 | Copying the row before a row scanned, from either end, keeps the invariant of the scan: what is written comes in order from distinct rows scanned, and the known rows of the bucket scanned stay sorted, those just written among them. |
| CopyScan.RoomLeft | dep/bzip2/blocksort.c:923-934 | There is always room: a row never overwrites one copied from the other end or a row of another bucket. |
| CopyScan.NotWritten | dep/bzip2/blocksort.c:923-934 | No row is copied twice. |
| CopyScan.HalvesMeet | dep/bzip2/blocksort.c:937-944 | If all rows of the bucket have been scanned, the copies from both ends fill every bucket without a gap. |
| CopyScan.UnknownMeansConstant | dep/bzip2/blocksort.c:939-943 | If some row of the bucket was never reached by the scan, the block is one byte over and over and no row was. |
| MainBuckets.CountPairs | dep/bzip2/blocksort.c:769-792 | The table counts how many rotations start with each pair of bytes, the last row wrapping round. |
| MainBuckets.SetOvershoot | dep/bzip2/blocksort.c:794-798 | The 34 bytes behind the block repeat its start. |
| MainBuckets.PlacePairs | dep/bzip2/blocksort.c:802-830 | Every row is placed in the bucket of its first two bytes, and the table then holds where each bucket starts. |
| MainBuckets.OrderBuckets | dep/bzip2/blocksort.c:833-860 | The shell sort lists every byte once, from the smallest big bucket to the largest. |
| MainQuickSort.MainQSort3 | dep/bzip2/blocksort.c:621-717 | Rows that agree in their first bytes are permuted into the order of the rotations, unless the budget is used up; rows outside stay, and the three stacks never hold more than 64 of their 100 ranges. |
| MainQuickSort.MainSimpleSort | dep/bzip2/blocksort.c:485-555 | The shell sort permutes the rows and, if it is not stopped by the budget, leaves them in the order of the rotations. |
| MainQuickSort.InsertRow | dep/bzip2/blocksort.c:504-524 | One insertion permutes the range; with stride 1 it extends the sorted part by one row, although the comparison may answer either way for equal rotations. |
| MainQuickSort.SplitByByte | dep/bzip2/blocksort.c:656-699 | The range is split about the median of three bytes into rows of smaller, equal and greater byte, the middle part never empty; or all bytes are equal and the rows agree one byte further. |
| MainQuickSort.OrderParts | dep/bzip2/blocksort.c:702-711 | The three exchanges put the parts in descending order of size. |
| MainQuickSort.SortingSplit | dep/bzip2/blocksort.c:697-716 | Replacing a range by its three parts, the middle one a byte deeper, keeps the invariant of the stack: rows are in order but for pairs inside one range, and the rows of a range agree as far as its depth. |
| MainQuickSort.MainStackIsShort | dep/bzip2/blocksort.c:646 | A range worth splitting lies fewer than 62 deep for every 31-bit length, which bounds the stack. |
| MainQuickSort.ByteDecides | dep/bzip2/blocksort.c:655-686 | Of rows that agree up to a depth the smaller byte there decides. |
| MainCompare.MainGtU | dep/bzip2/blocksort.c:347-471 | The comparison, with quadrants and without, tells which of two rotations is not the smaller one, reading at most 34 bytes behind the block; it takes r off the budget only if the two agree in 12 + 8r bytes. |
| MainCompare.QuadrantTells | dep/bzip2/blocksort.c:962-990 | Where bytes are equal and quadrants differ the quadrants decide the whole comparison. |
| RotationRanks.RanksOrder | dep/bzip2/blocksort.c:347-471 | The order of the rotations is that of numbers: ranks, equal for equal rotations. |
| SortedOrders.SameColumn | dep/bzip2/blocksort.c:1055-1061 | Any two sorted orders of the rotations of a block, from whatever sorter, have the same last column. |
| SortedOrders.RowForcedIff | dep/bzip2/blocksort.c:1055-1061 | All sorted orders have the block itself in the same row if and only if the block is not a repetition of a shorter string. |
| BlockSort.FallbackSort | dep/bzip2/blocksort.c:211-329 | For every non-empty block, periodic ones included, `fmap` ends as a permutation whose rotations are in non-decreasing lexicographic order, and the block bytes are rebuilt in `eclass8`. |
| BlockSort.SortedAsStrings | dep/bzip2/blocksort.c:211-329 | Sortedness by the comparison function used in the proofs is lexicographic order of the rotations as strings. |
| BlockSort.AssignClasses | dep/bzip2/blocksort.c:266-273 | Every row gets as class the header of the bucket of the row H places on, so that classes order rows by 2H bytes. |
| BlockSort.ScanBucket | dep/bzip2/blocksort.c:299-304 | Header bits are set exactly where the class changes inside the bucket, and no other bit changes. |
| BlockSort.RefineBucket | dep/bzip2/blocksort.c:294-305 | Sorting one bucket by class and setting its headers keeps the invariant that rows are sorted by H bytes, and extends the 2H-sorted part to the bucket's end. |
| BlockSort.RefinePass | dep/bzip2/blocksort.c:273-306 | One pass doubles the depth of all buckets; if nothing was left to do every row has a bucket of its own. |
| BlockSort.RefinedIsSorted | dep/bzip2/blocksort.c:259-313 | Once 2H exceeds the block or every bucket is a single row, the rotations are sorted. |
| BlockSort.BucketIsRefined | dep/bzip2/blocksort.c:294-305 | Rows of one bucket in the order of their classes are in the order of their first 2H bytes. |
| BlockSort.Rebuild | dep/bzip2/blocksort.c:315-329 | The first column of the sorted rows, rebuilt from saved byte counts, gives back the block. |
| BlockSort.FindOrigPtr | dep/bzip2/blocksort.c:1083-1088 | The row found is the one whose rotation is the block itself. |
| FallbackQuickSort.QuickSort3 | dep/bzip2/blocksort.c:92-180 | The range is permuted into non-decreasing class order, entries outside it stay, and the explicit stack never holds more than its 100 slots. |
| FallbackQuickSort.SimpleSort | dep/bzip2/blocksort.c:30-58 | The two insertion passes, by four and by one, sort a short range and only permute it. |
| FallbackQuickSort.SplitAbout | dep/bzip2/blocksort.c:126-170 | The range is split into entries below, equal to and above the pivot class. |
| FallbackQuickSort.SwapRanges | dep/bzip2/blocksort.c:66-75 | Two ranges exchange their contents and nothing else moves. |
| FallbackQuickSort.DeepRangesAreShort | dep/bzip2/blocksort.c:109-117 | A range still worth splitting lies fewer than 31 deep for every 31-bit block length, which bounds the stack. |
| FallbackQuickSort.StackIsShort | dep/bzip2/blocksort.c:109-113 | The number of stacked ranges is bounded by the halvings of the range, so a push never overflows. |
| BucketHeaders.SetBH | dep/bzip2/blocksort.c:205-209 | Sets one header bit of the packed table and no other. |
| BucketHeaders.ClearBH | dep/bzip2/blocksort.c:205-209 | Clears one header bit and no other. |
| BucketHeaders.NextBucket | dep/bzip2/blocksort.c:277-292 | Skipping whole words of set and of clear bits finds the next bucket of more than one row, or that there is none. |
| RadixPass.PlaceRows | dep/bzip2/blocksort.c:231-241 | Rows are grouped by first byte at the positions the byte counts give. |
| RadixPass.MarkBuckets | dep/bzip2/blocksort.c:243-257 | Header bits stand exactly at bucket starts, and behind the block come 64 bits that are set and clear in turn. |
| InverseBwt.WalkSpellsBlock | dep/bzip2/decompress.c:494-576 | The map T of the last column, walked from the row of the block, spells the block over and over, periodic blocks included. |
| InverseBwt.StepRotates | dep/bzip2/decompress.c:559-564 | Each step along T leads from a row to one equal to its one-step left rotation. |
| InverseBwt.SortedListsAgree | dep/bzip2/decompress.c:559-564 | Two sorted orders of the same rotations agree row by row as strings, which is what makes equal rotations harmless. |
| BwtDecoder.BuildCftab | dep/bzip2/decompress.c:494-516 | Bucket starts are the cumulative byte counts, and the range checks never refuse a counted block. |
| BwtDecoder.BuildFast | dep/bzip2/decompress.c:559-564 | The `tt` words hold, for every row, its byte below and the row T leads to above. |
| BwtDecoder.FastSpells | dep/bzip2/bzlib_private.h:444-456 | For any column and any start row the bytes fetched are those the walk along T spells. |
| BwtDecoder.FastSpellsBlock | dep/bzip2/bzlib_private.h:444-456 | For a block, its sorted rotations and its own row, the byte number k fetched is byte k of the block. |
| SmallDecoder.EntryStored | dep/bzip2/bzlib_private.h:458-472 | A 20-bit entry written in its two parts reads back, and no other entry changes. |
| SmallDecoder.SetLL | dep/bzip2/bzlib_private.h:464-472 | Stores one 20-bit entry in place. |
| SmallDecoder.BuildSmall | dep/bzip2/decompress.c:526-534 | The entries hold the rank of every row. |
| SmallDecoder.ReversePointers | dep/bzip2/decompress.c:536-545 | Pointer reversal comes back to its start and leaves T on every row that the walk from `origPtr` visits. |
| SmallDecoder.OrbitShort | dep/bzip2/decompress.c:536-545 | The orbit of a row is back after at most as many steps as there are rows, so reversal terminates. |
| SmallDecoder.IndexIntoF | dep/bzip2/bzlib.c:687-698 | Bisection finds the byte whose bucket holds the row. |
| SmallDecoder.FetchSmall | dep/bzip2/bzlib_private.h:474-479 | One fetch delivers the byte of the row's bucket and the entry as next position. |
| SmallDecoder.SmallIsFast | dep/bzip2/bzlib.c:706-804 | For every column and every start row the SMALL decoder delivers at each step the byte that the FAST decoder delivers. |
| RunLength.BlockRoundTrip | dep/bzip2/bzlib.c:216-284 | Reading a block of coded runs gives back the bytes of the runs and ends exactly at the block's end. |
| RunLength.ReadPair | dep/bzip2/bzlib.c:216-247 | A coded run, with or without a count byte, is read as that run if another byte follows. |
| RunLength.TextAlone | dep/bzip2/bzlib.c:591-680 | The byte fetched after the block matters only if the last count byte is missing. |
| RunEncoder.EState.constructor | dep/bzip2/bzlib.c:148-211 | A fresh compressor has accepted nothing, finished no block and handed out no byte. |
| RunEncoder.EState.AddPair | dep/bzip2/bzlib.c:216-247 | The open run is appended to the block, its bytes are marked in use and its text enters the check. |
| RunEncoder.EState.AddChar | dep/bzip2/bzlib.c:260-284 | One byte is accepted; everything accepted stays in finished blocks, the current block or the open run. |
| RunEncoder.EState.FlushRL | dep/bzip2/bzlib.c:252-256 | The open run is closed and no byte is lost. |
| RunEncoder.EState.CopyOutputUntilStop | dep/bzip2/bzlib.c:334-357 | Compressed bytes are handed out in order until they are all out or the room is used up; what is out and what is pending are always the stream so far. |
| BlockDivision.RunsAreUnique | dep/bzip2/bzlib.c:260-284 | A text is divided in one way only into runs of 1..255 equal bytes that are as long as can be. |
| BlockDivision.DivisionIsUnique | dep/bzip2/bzlib.c:289-403 | Between a flush and the next the runs are divided into blocks in one way only: every block ends with the run that fills it, and the rest is the last one. What is open is only whether the run begun by the last byte belongs to a block that was full before it; that is settled by the number of blocks, and depends on whether the flush was already asked for. |
| RunEncoder.EState.CopyInputUntilStop | dep/bzip2/bzlib.c:289-329 | Input is accepted until the block is full or input runs out, without losing or reordering a byte, and `nblock` stays within four of its limit; with room in the block and input at hand it takes some. |
| RunEncoder.EState.CompressBlock | dep/bzip2/compress.c:602-667 | Header before the first block, the block unless it is empty, trailer after the last: what is written is the next part of the stream; the finished block is sound and is full, or ends where a flush or the end was asked for; no input is lost, and the bytes written fit the rest of `arr2` behind the block. |
| RunEncoder.EState.HandleCompress | dep/bzip2/bzlib.c:361-403 | The loop over output and input terminates, keeps finished blocks and loses no input; a flush or finish that is given room comes nearer its end, and a finish that is given room makes progress. |
| RunEncoder.EState.Compress | dep/bzip2/bzlib.c:407-464 | Calls out of sequence are refused, exactly these, and change nothing; when a flush completes the finished blocks stand for all input ever given; a flush or finish given room is completed or comes nearer its end. Blocks are finished only as `Session` says. |
| RunEncoder.EState.Ended | dep/bzip2/bzlib.c:407-464 | Once the stream has ended, the bytes handed out are the whole stream, and its blocks stand for all input; the last of them, if there is any, was finished by a flush or the end. |
| RunEncoder.Session | dep/bzip2/bzlib.c:407-464 | Over any sequence of calls every finished block is sound, the texts of the blocks are a prefix of the input taken, and input taken and input waiting are together the input of the accepted calls. The blocks are made of runs as long as can be, up to 255; each reaches 100000 times its size less 19 bytes with its last run and not before, or ends where all input was taken that had been given when a flush or the end was asked for. |
| RunEncoder.Complete | dep/bzip2/bzlib.c:407-464 | From any state, repeating the flush under way and then the finish with some room reaches the end of the stream, with all input taken: each call takes input, closes the open run, finishes a block or leaves fewer bytes pending. All blocks but those ended by a flush are full. |
| BlockSize.BlockFits | dep/bzip2/compress.c:620-620 | The bits of a block with its magic number, and with a header and a trailer, fit the room behind the block in `arr2`. |
| BlockSize.BlockBitsAtMost | dep/bzip2/compress.c:236-598 | The bits written for a block are at most so many for its map and tables, six for each selector and twenty for each symbol. |
| RunDecoder.DState.Begin | dep/bzip2/decompress.c:547-574 | In either form, masked or not, the decoder starts with the first byte fetched and nothing put out. |
| RunDecoder.DState.GetFastByte | dep/bzip2/bzlib_private.h:444-456 | On a block's vector the position is always in range and the next byte of the block is fetched. |
| RunDecoder.DState.Fetch | dep/bzip2/bzlib_private.h:444-479 | The next byte of the block is fetched from the FAST or the SMALL vector, with the mask of a randomised block undone; positions are always in range. |
| RunDecoder.DState.FetchRunFast | dep/bzip2/bzlib.c:640-660 | The bytes of the next run are fetched, with the length of a run of one left implicit. |
| RunDecoder.DState.UnRleFast | dep/bzip2/bzlib.c:589-682 | For any output room, what is out is a prefix of the block's text with its check; it stops for room or at the end, and reports corruption exactly when the last count byte is missing, once all the text is out that the byte after the block makes of it. |
| RunDecoder.DState.FetchRun | dep/bzip2/bzlib.c:561-581 | The bytes of the next run are fetched, in randomised blocks and in the SMALL form. |
| RunDecoder.DState.UnRle | dep/bzip2/bzlib.c:706-804 | The promise of the FAST loop, for the SMALL vector and for randomised blocks in both forms. |
| RunDecoder.DState.Finished | dep/bzip2/bzlib.c:821-833 | At the end all of the text is out, the check is that of the text, and no count byte was missing. |
| RunDecoder.SortedSpells | dep/bzip2/decompress.c:494-576 | The column of a block's sorted rotations, masked if it is randomised, started at the block's own row, spells that block. |
| Randomiser.FlippedAt | dep/bzip2/bzlib_private.h:133-148 | The bytes flipped in a randomised block are exactly those two before the ends of the distances that the table of 512 numbers, gone round and round, lays end to end. |
| Randomiser.UnmaskedTwice | dep/bzip2/bzlib_private.h:133-148 | Undoing the mask twice changes nothing. |
| BlockOutput.DeliverFast | dep/bzip2/bzlib.c:815-840 | A loaded column, randomised or not, is put out completely, whatever room each call finds, none included, as long as some call finds room again: its whole text and check, or corruption exactly when its last count byte is missing. |
| BlockOutput.DeliverSmall | dep/bzip2/bzlib.c:815-840 | The same through the SMALL vector. |
| MtfList.MtfState.constructor | dep/bzip2/decompress.c:358-370 | The sixteen segments start as the list of all bytes in order. |
| MtfList.MtfState.Decode | dep/bzip2/decompress.c:423-475 | The two-level array refines a list: element n is returned and moved to the front, near or far, with or without a rebuild. |
| MtfList.MtfState.NearFront | dep/bzip2/decompress.c:429-444 | An element of the first segment moves to the front of the list. |
| MtfList.MtfState.FarFront | dep/bzip2/decompress.c:445-473 | An element of a later segment moves to the front while one element is carried down from each segment before. |
| MtfList.MtfState.Rebuild | dep/bzip2/decompress.c:463-472 | The segments are packed at the end of the array and the list does not change. |
| MtfList.FarStep | dep/bzip2/decompress.c:447-462 | Shifting one segment and carrying the last elements down is moving to the front, and segments stay ordered and at least sixteen apart. |
| MtfCoder.MakeMapsE | dep/bzip2/compress.c:106-115 | Bytes in use are numbered in order. |
| MtfCoder.MakeMapsD | dep/bzip2/decompress.c:26-36 | The bytes in use, in order. |
| MtfCoder.MapsUndo | dep/bzip2/decompress.c:26-36 | The two maps undo each other on the bytes in use. |
| MtfCoder.WriteRun | dep/bzip2/compress.c:174-186 | The digits written are the bijective base-two numeral of the run length. |
| MtfCoder.FindAndShift | dep/bzip2/compress.c:189-207 | The position of the byte in the list is found while those before it move up by one. |
| MtfCoder.GenerateMtfValues | dep/bzip2/compress.c:120-231 | The symbols of the last column are written over the array that still holds the pointers, writing never overtakes reading, and `mtfFreq` ends as the number of times each symbol was written. |
| ZeroRuns.DigitsDecoded | dep/bzip2/decompress.c:381-398 | A run's numeral is read back as its length as long as its digits stay below the guard. |
| ZeroRuns.RunValue | dep/bzip2/decompress.c:384-390 | For runs up to 900000 the guard on N never fires. |
| ZeroRuns.RoundTrip | dep/bzip2/decompress.c:372-486 | Decoding what was emitted for a column, from a list that agrees on the symbols in use, gives back the column. |
| ZeroRuns.EncodedAtMost | dep/bzip2/compress.c:120-231 | A column of n bytes yields at most n+1 symbols. |
| BlockDecoder.DecodeValues | dep/bzip2/decompress.c:372-486 | On every bit string the loop over the symbols, which decodes each as it is read, leaves the bytes and their counts, or fails at the symbol and in the way the specification says. |
| BlockColumn.BytesAre | dep/bzip2/decompress.c:372-486 | Decoding symbols while they are read gives what reading all of them first and then decoding gives; where one fails, both do. |
| BlockColumn.BytesSame | dep/bzip2/decompress.c:372-486 | Entries of `seqToUnseq` behind the bytes in use play no part. |
| MtfCoder.ColumnRoundTrip | dep/bzip2/decompress.c:372-486 | Decoding the encoder's symbols of a column of at most 900000 bytes yields the column. |
| MtfCoder.EncodedRange | dep/bzip2/compress.c:120-231 | No symbol exceeds the end marker. |
| HuffmanHeap.UpHeap | dep/bzip2/huffman.c:33-42 | A node added at the end rises until the heap is in order; the nodes are the same. |
| HuffmanHeap.DownHeap | dep/bzip2/huffman.c:44-59 | A node put at the top sinks until the heap is in order; the nodes are the same. |
| HuffmanHeap.TopLightest | dep/bzip2/huffman.c:33-59 | The top of a heap is a node of least weight. |
| HuffmanTree.ForestJoin | dep/bzip2/huffman.c:100-110 | Joining two lightest roots keeps the forest well formed, its total weight and the Kraft sum of each tree. |
| HuffmanLengths.LowDepth | dep/bzip2/huffman.c:63-148 | While the tree is built, a root of height h weighs at least the Fibonacci number h+1, so no height reaches 33 and the eight bits kept for it never overflow. |
| HuffmanOptimal.LightestDeepest | dep/bzip2/huffman.c:100-110 | In a code that fits, the two lightest symbols can be made deepest siblings at no more cost. |
| HuffmanOptimal.ReducibleMerge | dep/bzip2/huffman.c:100-110 | Merging the two lightest symbols reduces optimality of the code to that of the smaller problem. |
| HuffmanOptimal.CheapestFound | dep/bzip2/huffman.c:63-148 | A tree built by always joining the two lightest has no more bits than any code with Kraft sum at most one. |
| HuffmanLengths.BuildTree | dep/bzip2/huffman.c:84-110 | The heap loop ends in one tree in which the two lightest were always joined. |
| HuffmanLengths.Rescale | dep/bzip2/huffman.c:142-146 | Every weight w becomes 1 + w/2. |
| HuffmanLengths.TooLongWeighs | dep/bzip2/huffman.c:114-123 | A codeword longer than maxLen needs weights whose sum is at least the Fibonacci number maxLen+2. |
| HuffmanLengths.HeavyEnough | dep/bzip2/huffman.c:114-146 | Such a sum exceeds twice the greatest number of symbols, so that rescaling lowers it. |
| HuffmanLengths.HalvedTotal | dep/bzip2/huffman.c:142-146 | Rescaling makes a total above twice the number of symbols less, so rescaling ends. |
| HuffmanLengths.MakeCodeLengths | dep/bzip2/huffman.c:63-148 | For 2 to 258 symbols and total frequency below 2^23 it terminates; all lengths lie in 1..maxLen, the Kraft sum is exactly 1, and no prefix code is cheaper for the weights as last rescaled. Every rescaling was called for: a cheapest code for the weights before it had a codeword longer than maxLen, and they added up to at least the Fibonacci number maxLen+2. If the frequencies, zeros counted as one, add up to less, nothing is rescaled and the lengths minimise the sum of max(freq,1)*len. |
| HuffmanLengths.LightIsOptimal | dep/bzip2/huffman.c:63-148 | Rescaled as often as called for means not at all below that Fibonacci number, and then the lengths are optimal for the frequencies themselves. |
| CanonicalCode.AssignCodes | dep/bzip2/huffman.c:152-165 | Codewords of each length count up from the first one, in symbol order. |
| CanonicalCode.CodeFits | dep/bzip2/huffman.c:152-165 | With a Kraft sum of at most one every codeword fits its length. |
| CanonicalCode.PrefixFree | dep/bzip2/huffman.c:152-165 | No codeword is a prefix of another. |
| CodeTables.CreateDecodeTables | dep/bzip2/huffman.c:170-200 | `perm` lists symbols by length, `limit` the greatest codeword of each length, `base` the shift from codeword to place. |
| CodeTables.SearchFound | dep/bzip2/decompress.c:88-101 | A value not above its limit is the codeword of the symbol at the place that `base` gives. |
| CodeTables.StandsAlone | dep/bzip2/decompress.c:74-102 | At most one codeword stands at a place of a bit string. |
| CodeTables.LimitedPlace | dep/bzip2/decompress.c:98-101 | Whatever the lengths, an accepted value gives the place of a symbol or is refused; no unset table entry is read. |
| TableChoice.FirstTables | dep/bzip2/compress.c:279-317 | The first guess divides the alphabet into ranges, one for each table from the last to the first, each as long as `PartEnd` says: a symbol costs nothing in the table of its range and 15 in the others, and none is cheap in two tables. |
| TableChoice.PartEnd | dep/bzip2/compress.c:285-301 | A range of symbols ends at the first symbol where its frequencies reach the n-th part of those left, or the alphabet ends; in every second part but the first and the last it ends one symbol earlier if it has more than one. Its frequencies and those left always add up. |
| TableChoice.NumGroups | dep/bzip2/compress.c:272-277 | Two tables, and one more from 200, 600, 1200 and 2400 symbols on. |
| TableChoice.TallySum | dep/bzip2/compress.c:279-283 | The frequencies of all symbols add up to the number of symbols. |
| TableChoice.PackedCost | dep/bzip2/compress.c:358-386 | Adding two costs packed in one word of 32 bits gives both costs. |
| TableChoice.GroupCosts | dep/bzip2/compress.c:352-393 | Both the fast track and the slow loop give the cost of the group with every table. |
| TableChoice.SelectTables | dep/bzip2/compress.c:344-442 | Every group of fifty selects the first table that codes it in the fewest bits, the uses of every table are counted, and the selectors stay within their array of 18002. |
| TableChoice.FitTable | dep/bzip2/compress.c:444-452 | The new table of a group count has lengths 1..17, Kraft sum 1, and no cheaper rival for its uses, rescaled as often as a codeword came out longer than 17 and no more. |
| TableChoice.FittedIsCheapest | dep/bzip2/compress.c:444-452 | A table used fewer than 6765 times, unused symbols counted once, has no cheaper rival for its uses themselves. |
| TableChoice.ChooseTables | dep/bzip2/compress.c:271-458 | The four rounds, from the first guess on: in each every group selects the first table that codes it in the fewest bits among the tables of the round before, and the tables after it fit the groups that selected them. The tables and selectors returned are those of the last round; there is a selector for every group, and there are fewer than 18002. |
| BitStream.BitWriter.constructor | dep/bzip2/compress.c:37-41 | An empty writer. |
| BitStream.BitWriter.BsW | dep/bzip2/compress.c:58-78 | For 1 <= n <= 24 and v < 2^n exactly the n bits of v are appended. |
| BitStream.BitWriter.FinishWrite | dep/bzip2/compress.c:46-54 | All bits are in bytes, with fewer than eight bits added. |
| BitStream.BitReader.GetBits | dep/bzip2/decompress.c:43-65 | The next n bits are delivered and consumed, or, if too few have arrived, nothing is lost. |
| BitStream.BitReader.Feed | dep/bzip2/decompress.c:43-65 | More input is appended to what is still to be read. |
| BlockReader.Source.Get | dep/bzip2/decompress.c:43-65 | Under any chunking a field is the next n bits of the whole input. |
| BlockWriter.WriteMap | dep/bzip2/compress.c:494-515 | The rows in use, then the flags of those rows. |
| BlockWriter.SelectorPositions | dep/bzip2/compress.c:461-478 | The positions of the selectors in a list that each use moves to the front of. |
| BlockWriter.WriteSelectors | dep/bzip2/compress.c:517-524 | Number of tables, number of selectors, and their positions in unary. |
| BlockWriter.WriteTable | dep/bzip2/compress.c:528-539 | A first length and the steps from each length to the next. |
| BlockWriter.WriteData | dep/bzip2/compress.c:544-594 | The codeword of every symbol in the table its group selected. |
| BlockReader.ReadMapping | dep/bzip2/decompress.c:266-284 | On every bit string it reads what the specification of the map reads, errors and want of input included. |
| BlockReader.ReadPositions | dep/bzip2/decompress.c:291-300 | Positions are stored as they arrive, in an array of 18002, with no check: storing behind its end is its own outcome, as the specification says. |
| BlockReader.UndoSelectors | dep/bzip2/decompress.c:302-314 | Undoes the move-to-front coding of the selectors from one array of 18002 into another. |
| BlockReader.ReadGroups | dep/bzip2/decompress.c:286-314 | On every bit string it reads what the specification of the selectors reads; it ends with an overrun exactly where the source stores behind its arrays, and otherwise every selector names a table. |
| BlockFormat.SelectorsOverrun | dep/bzip2/decompress.c:289-300 | The selector array is overrun if and only if more than 18002 selectors are announced and the codes of 18003, each in range, arrive. |
| BlockFormat.OverlongZeros | dep/bzip2/decompress.c:289-300 | It happens: two tables, 18003 selectors, and a zero bit for each. |
| BlockReader.ReadLength | dep/bzip2/decompress.c:320-328 | Follows the steps to the next length, refusing one that leaves 1..20. |
| BlockReader.ReadAllTables | dep/bzip2/decompress.c:316-329 | Reads exactly what the specification of the tables reads. |
| BlockFormat.MapWritten | dep/bzip2/decompress.c:266-284 | The map written is read back, whatever follows; an empty map is refused. |
| BlockFormat.SelectorsWritten | dep/bzip2/decompress.c:286-314 | The selectors written are read back, whatever follows. |
| BlockFormat.SelectedAgain | dep/bzip2/decompress.c:302-314 | Undoing the move-to-front coding of the selectors gives the selectors. |
| BlockFormat.TablesWritten | dep/bzip2/decompress.c:316-329 | The code lengths written are read back, whatever follows. |
| BlockData.WordRead | dep/bzip2/decompress.c:74-102 | The symbol whose codeword comes next is the one that was written, and exactly its bits are consumed. |
| BlockData.NextIs | dep/bzip2/decompress.c:74-102 | In a prefix code the symbol read is the one whose codeword stands here; no other does, and if none does none is read. |
| BlockData.DataWritten | dep/bzip2/decompress.c:372-486 | Symbols up to the end marker are read back from their groups of fifty. |
| SymbolReader.MakeDecoder | dep/bzip2/decompress.c:331-350 | The decoding tables of any lengths within 1..20, from those lengths. |
| SymbolReader.DecodeSymbol | dep/bzip2/decompress.c:74-102 | For any code lengths, prefix code or not, and on every bit string: the symbol that the tables lead to, a data error, or that bits are missing, exactly as the definition says. |
| SymbolReader.GetMtfVal | dep/bzip2/decompress.c:74-102 | The next symbol is read with the table that the selector of its group of fifty names; behind the last group it is an error. |
| BlockFields.NumberWritten | dep/bzip2/decompress.c:241-264 | A number read byte by byte is the number whose bits were written. |
| BlockFields.HeadWritten | dep/bzip2/decompress.c:241-329 | The whole head of a block is read back. |
| BlockFields.ColumnWritten | dep/bzip2/decompress.c:241-486 | A block that was written is read as check, row and last column. |
| BlockEncoder.CompressBlock | dep/bzip2/compress.c:602-655 | What is written for a block stands for it: its check, its row among its sorted rotations, its bytes in use, and the symbols of its last column in codes that can be decoded. |
| BlockEncoder.PutUInt32 | dep/bzip2/compress.c:83-89 | Four bytes, the most significant first, are the 32 bits of the number. |
| BlockEncoder.EncodedMarked | dep/bzip2/compress.c:212-228 | The end marker comes last and nowhere else. |
| BlockEncoder.BlockReadBack | dep/bzip2/decompress.c:241-486 | What was written for a block is read back as the last column of its sorted rotations. |
| BlockDecoder.ReadBlockHead | dep/bzip2/decompress.c:241-329 | On every bit string it reads what the specification of the head reads, overrun included. |
| BlockDecoder.ReadBlock | dep/bzip2/decompress.c:241-518 | On every bit string a block is read, from its check to its end marker, as the specification reads it; the column is loaded and the row lies in it. |
| RollingHash.HashRolls | dep/zlib/deflate.c:141-141 | Three updates make the hash of the last three bytes, whatever came before. |
| RollingHash.HashIs | dep/zlib/deflate.c:141-141 | The hash of three bytes is their exclusive or, the first shifted by two thirds of the width of the hash and the second by one, rounded up, cut to that width. |
| RollingHash.ThirdByteForced | dep/zlib/deflate.c:1441-1453 | Equal hashes and two equal bytes force the third byte to be equal. |
| HashChains.ChainsInsert | dep/zlib/deflate.c:155-164 | Inserting a string keeps every entry of every chain a string of that hash, and leaves none out: a head is the newest string of its hash, a link the newest before its own. |
| HashChains.ChainsSlide | dep/zlib/deflate.c:187-209 | So does sliding the tables; what falls out of the window becomes nil. |
| HashChains.ChainsLink | dep/zlib/deflate.c:1484-1485 | Following a link within the window leads to the nearest string of the same hash before it, or to none if the window has none. |
| ParseRules.SearchIsUnique | dep/zlib/deflate.c:1348-1489 | What a search finds is determined by what has been read and which strings have been inserted. |
| ParseRules.DecisionIsUnique | dep/zlib/deflate.c:1811-2103 | At every position each parser has one choice only: the rules leave the next symbol, and what is inserted and held back, no freedom. |
| ParseRules.FastMatches | dep/zlib/deflate.c:1839-1853 | Wherever the nearest string of the same hash is within reach and repeats three bytes or more, deflate_fast emits a match at least that long. |
| ParseRules.SlowHolds | dep/zlib/deflate.c:1942-1966 | Wherever the nearest string of the same hash repeats more than the match held back, and that is not good enough already, deflate_slow holds back a match at least that long, if it has more than five bytes. |
| Deflate.State.SlideHash | dep/zlib/deflate.c:187-209 | Every head and link is moved down by the window size or cut off. |
| Deflate.State.SlideWindow | dep/zlib/deflate.c:274-287 | Positions in the input stay what they were, and with them everything the window and the tables say; strings left out are dropped where they fall out of the window. |
| Deflate.State.InitHash | dep/zlib/deflate.c:306-325 | The rolling hash starts afresh, and exactly those of the strings left out are inserted that are complete now. |
| Deflate.State.FillWindow | dep/zlib/deflate.c:251-368 | Nothing read is lost or reordered, and the window holds the input from its base on, up to the lookahead asked for or the end of the input. It slides exactly when the parser is near its end, and each time reads as much as there is room for. |
| Deflate.State.InsertString | dep/zlib/deflate.c:155-164 | The string becomes head of its chain, and the old head, which is the nearest string of that hash, is returned. |
| Deflate.State.TryMatch | dep/zlib/deflate.c:1439-1471 | The comparison that skips the third byte finds exactly the common length. |
| Deflate.State.LongestMatch | dep/zlib/deflate.c:1348-1489 | The strings tried are those on the chain, one link after another, until patience, the chain or a nice match ends the search. The result never exceeds the lookahead; if it improves on the previous length it is a match at the place reported, no string tried repeats more of what lies ahead, and of those that repeat as much it is the nearest. |
| Deflate.State.Search | dep/zlib/deflate.c:1839-1853 | The search is the one the rules describe: the strings tried are ALL inserted strings of the hash from the nearest on, none left out, until none is left within reach, or patience is at its end, or a nice match is found; what is found is the longest match of these, and the nearest of the longest, or nothing if none is longer than the match before. |
| Deflate.State.FastStep | dep/zlib/deflate.c:1826-1894 | One decision of deflate_fast: the match found is emitted if it has at least three bytes, and its strings are inserted exactly if it is short enough and three bytes follow; otherwise the current byte is emitted. |
| Deflate.State.SlowStep | dep/zlib/deflate.c:1915-2012 | One decision of deflate_slow: unless the match held back is good enough already, a longer one is searched for here, and matches of at most five bytes are dropped for filtered data, of three bytes if from too far away; if nothing longer is left the match held back is emitted and its strings inserted as far as they are complete, otherwise the byte held back is emitted and the one here held back. |
| Deflate.State.RleStep | dep/zlib/deflate.c:2055-2096 | One decision of deflate_rle: a run of at least three bytes equal to the one before, as long as it is up to 258 and the end of the input read, is a match at distance one; a literal is emitted only if there is none. |
| Deflate.State.DeflateFast | dep/zlib/deflate.c:1811-1902 | Whenever it returns the symbols stand for exactly the input before the current position, and the way from where it began is one of moments that follow each other by the rules: each decision is that of `FastStep`, made with 262 bytes ahead or at the end of an input that is to be flushed. |
| Deflate.State.DeflateSlow | dep/zlib/deflate.c:1910-2030 | The same for lazy matching, with the decisions of `SlowStep`, but for one byte that may be held back. |
| Deflate.State.DeflateRle | dep/zlib/deflate.c:2038-2103 | The same with the decisions of `RleStep` and no hash table; 259 bytes ahead suffice. |
| Deflate.State.DeflateHuff | dep/zlib/deflate.c:2109-2139 | The same with literals only, one byte ahead. |
| Deflate.State.RunHere | dep/zlib/deflate.c:2061-2082 | The number of times the previous byte repeats, cut off at the lookahead and at 258, where it is at least three; it is zero exactly if one of the next three bytes differs. |
| Deflate.State.StoreDirectly | dep/zlib/deflate.c:1627-1709 | Stored blocks made directly in the output, as large and as many as input and room allow: first what is left in the window, then the caller's bytes, in order. All but the last have 65535 bytes, and none is shorter than is worth it unless it ends with all of the input and is to be flushed. |
| Deflate.State.KeepCopied | dep/zlib/deflate.c:1711-1743 | The last bytes that went past the window are copied into it: they replace all of it, go behind what it holds, or follow a slide. |
| Deflate.State.DeflateStored | dep/zlib/deflate.c:1627-1802 | Level 0: the blocks stored are the input, in order, and what has not been stored is in the window; a block or the stream is reported finished only when all is stored. Of the blocks of one call all but the last two have 65535 bytes, and none is shorter than the window and the pending buffer less seven bytes, unless it ends with all the input of a call that flushes. |
| Deflate.State.ForgetHistory | dep/zlib/deflate.c:1211-1218 | A full flush that is complete empties the heads and starts a new history; the parser's invariant holds for it, and a point where expansion can start afresh is noted. |
| Deflate.State.Admit | dep/zlib/deflate.c:946-1030 | Which calls are refused, exactly: after the end without asking for it, without room for output, or with nothing to do; or, with more input after the end, unless bytes still wait. A refused call reads nothing. |
| Deflate.State.Call | dep/zlib/deflate.c:946-1255 | One call of `deflate` with any input, any of the six flush values, and room or none: it is refused exactly when the source refuses it, and then nothing changes but what remembers the last call; otherwise it reads part of the input and keeps the invariant of its parser. If its flush completes, all input ever read is told; the stream ends only when all is told and no byte waits; a completed full flush, and nothing else, adds a restart point. With more room than it uses a call that is not refused reads all it is offered, completes its flush, and returns that the stream has ended exactly if that was asked for. The moments of the call, from what was there before with the input offered now, follow each other by the rules. |
| Deflate.Run | dep/zlib/deflate.c:946-1255 | For levels 0 to 9, all strategies, window and memory sizes, and every sequence of calls with any input, flush and room: the symbols have lengths 3..258 and distances up to the window size less 262, and expand to a prefix of the input that was read, all of it once a flush is complete or the stream has ended. From every completed full flush on, the symbols expand by themselves to the input read after it. At level 0 they are the bytes of stored blocks of at most 65535, which in every call are as long as `DeflateStored` says. At every other level the symbols are those the rules of the parser decide, moment by moment through all calls, from the beginning on, for the limits of the level in the table of the source; a completed flush leaves nothing undecided. No call with room and input, or asking for the end, is refused unless the end was asked for before; with more room than it uses it is answered as `Deflate.State.Call` says, so that one such call suffices to end the stream. |
| Lz77Symbols.CopyRepeats | dep/zlib/inffast.c:248-261 | Copying from a distance extends a string by given bytes if and only if these repeat it at that distance. |
| LowBits.LowValSplit | dep/zlib/inffast.c:107-111 | Masking and shifting take the lowest bits off a number. |
| InflateWindow.Output.CopyMatch | dep/zlib/inffast.c:166-261 | In the output, in one piece of the window, around its end, or partly in each: a match appends the bytes its distance back in the true history, or is refused exactly when it reaches back too far. |
| InflateWindow.Output.CopyRest | dep/zlib/inffast.c:236-246 | Three bytes at a time and then one or two are the same copy, also when it overlaps itself. |
| InflateWindow.PieceOfWindow | dep/zlib/inffast.c:196-235 | Where the bytes a distance back in a circular window lie. |
| InflateWindow.CopyBackMore | dep/zlib/inffast.c:196-261 | A copy may be made in pieces. |
| InflateFast.Inflater.Fetch | dep/zlib/inffast.c:101-106 | A byte enters the bit buffer above the bits that are there. |
| InflateFast.Inflater.Decode | dep/zlib/inffast.c:107-112 | The two-level table gives the entry for the bits that come next. |
| InflateFast.ShortMore | dep/zlib/inflate.c:1036-1054 | What a table tells from some bits it tells from more, and what it tells with no more bits than these: an entry stands at all places that begin with its codeword. |
| InflateFast.Inflater.GiveBack | dep/zlib/inffast.c:289-304 | Whole bytes go back to the input, fewer than eight bits stay, and the unread bits are the same. |
| InflateFast.ReadDistance | dep/zlib/inffast.c:132-164 | A distance code and its extra bits, for which 28 bits suffice. |
| InflateFast.OneItem | dep/zlib/inffast.c:100-287 | One round fetches at most six bytes, writes at most 258, consumes exactly the next item of the stream and has its effect. |
| InflateFast.InflateFast | dep/zlib/inffast.c:50-304 | All items taken are literals and matches within the history, each with its effect; then the block ends, the data are in error, or input or room run short; the bit buffer and the input account for every unread bit, and no byte is given back that this call did not take. |
| SymbolBits.RootStands | dep/zlib/inflate.c:1036-1040 | The codeword of an entry in the first level is the bits of its index, the first one lowest, as many as the entry says. |
| SymbolBits.LinkStands | dep/zlib/inflate.c:1041-1052 | A longer codeword is the bits of an entry whose operation is the number of index bits of the second level, and those of an entry there, counted from the value of the first. |
| SymbolBits.MatchRead | dep/zlib/inffast.c:121-164 | A codeword of an entry with operation 16 + e followed by the e bits of x, the lowest first, for the length, and the same for the distance, are read as one match of value plus x each, and exactly these bits are taken, whatever follows. |
| SymbolBits.LengthFits | dep/zlib/inftrees.c:55-60 | Every length 3..258 exceeds the base of its code by what the extra bits of that code can say. |
| SymbolBits.DistFits | dep/zlib/inftrees.c:61-68 | So does every distance 1..32768. |
| SymbolBits.SymbolRead | dep/zlib/trees.c:898-937 | The bits of a symbol are read back as that symbol, and no others are taken. |
| SymbolBits.BitsCarry | dep/zlib/trees.c:898-949 | The bits written for a sequence of symbols, codewords and extra bits with the bases of section 3.2.5 of RFC 1951, carry these symbols and then the end of the block, whatever follows: this is what `CallsRestore` asks of a stream. |
| InflateFast.PlayedIsExpanded | dep/zlib/inffast.c:50-304 | Items played from an empty history give the expansion of the symbols. |
| InflateSteps.PullCode | dep/zlib/inflate.c:1036-1055 | Bytes are pulled until the bits in the buffer tell the codeword, on one level or two: the entry is the one for all that is unread, fewer than eight bits stay in the buffer, and if input runs out first nothing is lost. |
| InflateSteps.NeedBits | dep/zlib/inflate.c:1077-1082 | Extra bits are taken once they are there; if input runs out first nothing is lost. |
| InflateSteps.MidwayMore | dep/zlib/inflate.c:1026-1183 | Whatever has been read of an item stays right when more input arrives. |
| InflateSteps.LacksItem | dep/zlib/inflate.c:1026-1183 | Where bits are missing for the next step, they are missing for the item. |
| InflateSteps.StepLen | dep/zlib/inflate.c:1026-1075 | The next codeword: a literal, the end of the block, no code, or the base of a length; or input has run out and does not suffice for the item. |
| InflateSteps.StepDist | dep/zlib/inflate.c:1087-1114 | The codeword of the distance, or no code, or want of input. |
| InflateSteps.StepMatch | dep/zlib/inflate.c:1132-1176 | As much of a match as there is room for, in one piece of the window or of the output: together the pieces are the match, and it fails exactly where it reaches back behind the window. |
| InflateSteps.StepFast | dep/zlib/inflate.c:1027-1033 | With plenty of input and room inflate_fast takes over, also with up to fourteen bits in its buffer, and hands back the state between items. |
| InflateSteps.Continue | dep/zlib/inflate.c:1026-1183 | A call on the items of a block, from whatever state the last one paused in, terminates; it pauses only where its input is used up and does not suffice for the next item, or where something is to be written and its room is used up. |
| InflateCalls.UpdateWindow | dep/zlib/inflate.c:368-411 | Whether the bytes fill the window, fit behind the last ones or go round its end, it then holds the last bytes of the history, in order. |
| InflateCalls.InflateCalls | dep/zlib/inffast.c:50-304 | Over any number of calls, whatever chunks the input comes in and whatever room each finds, none included, with the window updated in between: what the calls put out together is what the items of the input stand for, up to a part of a match, and matches reach back through the window into earlier calls. They pause only where all the input is consumed and does not suffice for the next item, or where the last call has used up its room. |
| InflateCalls.CallsRestore | dep/zlib/inffast.c:50-304 | If what was fed is the beginning of a stream that carries the symbols the compressor tallied for an input, no call fails and what they put out is a prefix of that input; it is all of it when the block ends, and once the whole stream has been fed nothing but want of room keeps the calls from getting there. |
| Gf2.MulCommutes | dep/zlib/crc32.c:155-170 | Multiplication modulo the CRC polynomial commutes. |
| Gf2.MulAssociates | dep/zlib/crc32.c:155-170 | And associates. |
| CrcPowers.MultModP | dep/zlib/crc32.c:155-170 | For nonzero a the loop computes the product modulo the polynomial, and ends. |
| CrcPowers.MakePowerTable | dep/zlib/crc32.c:325-329 | Entry k is x to the power 2^k. |
| PowerTable.HeaderIsPower | dep/zlib/crc32.h:9439-9446 | So is entry k of the table shipped in the header. |
| PowerTable.Squares | dep/zlib/crc32.h:9439-9446 | The square of the last entry is x: x^(2^32) = x. |
| CrcPowers.Period | dep/zlib/crc32.c:176-187 | Powers repeat after 32 squarings, which justifies wrapping the table index. |
| CrcPowers.X2nModP | dep/zlib/crc32.c:176-187 | x to the power n * 2^k, for all n and k. |
| CrcBytes.MakeCrcTable | dep/zlib/crc32.c:314-319 | Entry i is what eight steps make of octet i. |
| CrcBytes.CrcConcat | dep/zlib/crc32.c:694-1010 | A CRC continued over a second piece is the CRC of both. |
| CrcBytes.FoldFrom | dep/zlib/crc32.c:1021-1026 | A fold from any state is a shifted state plus the fold from zero. |
| CrcBytes.Combine | dep/zlib/crc32.c:1021-1026 | Combining two CRCs with the second length gives the CRC of the concatenation, for every length. |
| CrcBytes.CombineOp | dep/zlib/crc32.c:1047-1049 | The same with an operator made beforehand. |
| CrcBytes.CombineGen | dep/zlib/crc32.c:1034-1039 | The operator is x to the power of eight times the length. |
| CrcWords.CrcWord | dep/zlib/crc32.c:676-681 | One word at a time is its octets one at a time. |
| CrcBraid.BraidWord | dep/zlib/crc32.c:799-834 | A word passed through the braid tables is the state shifted by a whole block. |
| CrcBraid.OwesNext | dep/zlib/crc32.c:775-835 | After each block the N braids still owe exactly what the byte-wise CRC of the blocks so far is. |
| BigEndian.CrcWordBig | dep/zlib/crc32.c:683-689 | The byte-swapped form of one word at a time. |
| BigEndian.BraidWordBig | dep/zlib/crc32.c:921-956 | The byte-swapped form of a braid step. |
| Crc32.Braid | dep/zlib/crc32.c:528-540 | The braid tables of N and W, in both byte orders. |
| Crc32.MakeTables | dep/zlib/crc32.c:310-334 | All tables are right, for every N and W. |
| Crc32.BraidedLittle | dep/zlib/crc32.c:732-858 | The N-braid loop in little-endian order equals the byte-wise fold. |
| Crc32.BraidedBig | dep/zlib/crc32.c:859-981 | So does the byte-swapped big-endian loop. |
| Crc32.Crc32Z | dep/zlib/crc32.c:694-1010 | For every initial crc, buffer, length, alignment and byte order, N and W: the byte-wise CRC. |
| CrcLaws.CrcIsPolynomial | dep/zlib/crc32.c:694-1010 | What that CRC is, as polynomials: 32 ones, plus the initial value with its bits turned over times x^(8n), plus the sum of octet k times x^(8(n - k)), for every string of n octets and every initial value. |
| CrcLaws.Residue | dep/zlib/crc32.c:694-1010 | Every string followed by its own CRC, the lowest octet first, has the CRC 0x2144df1c. |
| Adler32.Adler32Z | dep/zlib/adler32.c:61-134 | On all three length paths, with and without division, the checksum of the definition from the sums that come in; the single exception is a byte that finds an unreduced second sum and leaves it so, and this is said exactly. |
| Adler32.OverfullByte | dep/zlib/adler32.c:70-78 | That exception occurs. |
| Adler32.NoOverflow | dep/zlib/adler32.c:10-12 | Up to NMAX bytes the sums stay within 32 bits, even if they come in unreduced. |
| Adler32.NmaxIsLargest | dep/zlib/adler32.c:10-12 | NMAX is the largest number of bytes for which the bound holds. |
| Adler32.FoldIsRaw | dep/zlib/adler32.c:98-130 | Reduction may be put off to the end. |
| Adler32.Mod28Is | dep/zlib/adler32.c:31-35 | The shift form of MOD28 is the remainder exactly while one subtraction suffices, in particular below 2^28. |
| Adler32.ModIs | dep/zlib/adler32.c:36-40 | The shift form of MOD is the remainder of every 32-bit number. |
| Adler32.Mod63Is | dep/zlib/adler32.c:41-53 | The shift form of MOD63 is the remainder of every number below 2^63. |
| Adler32.ContinuedFold | dep/zlib/adler32.c:142-155 | What a checksum becomes when bytes are appended, in terms of the checksum of those bytes. |
| Adler32.Combine | dep/zlib/adler32.c:142-155 | From a checksum of u and one of v it gives the checksum of u followed by v; for first sums of any size, the result is right exactly when the subtractions suffice; a negative length is refused. |
| Adler32.NotEnough | dep/zlib/adler32.c:142-155 | They do not suffice for a first sum of 65535 and the checksum of 256 bytes 255 and one byte 227. |
| Sfmt.Generator.GenRandAll | dep/SFMT/SFMT.c:245-263 | The state moves on by its size in the sequence of the recursion, in place. |
| Sfmt.Generator.GenrandUint32 | dep/SFMT/SFMT.h:139-149 | Each call returns the next number of the sequence. |
| Sfmt.Generator.GenrandUint64 | dep/SFMT/SFMT.h:159-183 | Two numbers at a time. |
| Sfmt.Generator.FillFirst | dep/SFMT/SFMT.c:95-117 | The first words come from the old state, the later ones from the array itself. |
| Sfmt.Generator.FillLast | dep/SFMT/SFMT.c:118-128 | The last words also go into the state, whether the array is shorter than two states or not. |
| Sfmt.Generator.FillArray32 | dep/SFMT/SFMT.c:293-300 | For every legal size the array holds what as many serial calls would return, and what comes after is the same. |
| Sfmt.Inner | dep/SFMT/SFMT.c:178-184 | The folded check bit is the parity of the bits that the check vector picks. |
| Sfmt.PeriodCertification | dep/SFMT/SFMT.c:170-200 | If the check holds or the check vector is zero nothing changes. Otherwise the bit of the first state word is flipped that the first one of the vector picks, the words of the vector taken in order and each from its lowest bit on, and afterwards the parity is odd. |
| Sfmt.FlipCertifies | dep/SFMT/SFMT.c:190-199 | Flipping a bit the vector picks changes the parity. |

## Left out

- MainSort.SortRotations: the budget is a number of any size, where the source's has 32 bits; block, quadrants and the fallback sorter's arrays do not share memory.
- Bitwise or of fields without a common bit is modelled as a sum.
- The rest of `trees.c` (which codes a block gets, and how they are sent), the making of tables in `inftrees.c` and the states of `inflate.c` other than those of a block's items: decoding tables are parameters that must be well formed, and a block's codewords are those the tables hold.
- Deflate.State.Call: gzip headers are not modelled, and a header or trailer is bytes that wait or do not.
- Preset dictionaries, `deflateParams`, `deflateTune`, `deflatePrime`, `deflateCopy` and the variants FASTEST, UNALIGNED_OK and LIT_MEM.
- InflateFast.InflateFast: INFLATE_STRICT and INFLATE_ALLOW_INVALID_DISTANCE_TOOFAR_ARRR are not modelled; the `sane` flag is taken as set.
- InflateCalls.InflateCalls: one block's items; block headers, stored blocks and trailers of `inflate` are outside, as is the field `back`.
- Crc32.Crc32Z: the initial crc is a 32-bit word; the assembly for ARM, MAKECRCH output and `once` are not modelled.
- `sfmt_fill_array64`, which differs from `sfmt_fill_array32` only in how the array is seen, initialisation from seeds and keys, conversions to real numbers and the SIMD forms of SFMT.
- Memory allocation, verbosity and error strings, file input and output of both libraries, gzip headers.
- gSOAP, the game itself, scripts and build files: they hold no algorithm of the kind modelled here, or their source is generated.
