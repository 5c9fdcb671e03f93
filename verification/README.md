# FFmpeg: decoders, transcoder steps, a condition variable and a command line splitter, verified

This project models six parts of FFmpeg and proves what they are for.

**4X Movie key frames** (`Huffman*.dfy`, `FourXmIBlock*.dfy`, `FourXmKeyFrame.dfy`, `FourXmKeyPacket.dfy`). A key frame
carries a raw stream, weights for 257 symbols and a prefix stream; the decoder merges the two lightest nodes until one
is left, reads the codes back from the leaves up, and decodes run/level coefficient blocks with them, as in sections
F.1.2 and F.2.2 of ITU-T T.81. The in-place array loops are proved against a functional forest, and of the forest it is
proved that the code is optimal, decodable, complete, and never longer than 22 bits. That answers the source's own
question "can this happen at all ?" about code length overflow: it cannot, and three table lookups of nine bits always
reach the end of a code. With all 257 symbols live the loop runs out of nodes with two roots, and the code is then not
prefix-free; `PrefixFreeIff` says that this is the only exception. A whole packet, sizes and weight ranges and both
byte streams, is decoded back to its blocks.

**4X Movie delta frames** (`FourXmPHeader.dfy`, `FourXmDeltaPacket.dfy`, `FourXmSplitTree.dfy`, `FourXmPaint.dfy`,
`FourXmFrame.dfy`, `FourXmMotion.dfy`, `FourXmPixels.dfy`, `FourXmPFrame.dfy`). A packet is cut into three streams with
wrapping 32-bit arithmetic. Each 8x8 block is a tree of splits and leaves, spread over three streams. The recursive
decoder is a class that advances three cursors and writes one buffer; it is proved to parse exactly the printed trees
and to paint exactly their meaning, and for every pixel of a frame it is proved where it comes from: so many rows and
columns away in the picture shown before, as the table of 256 vectors says, and never from outside of that picture. A
printed packet, in every version, decodes to its blocks. The table entry -1 of `size2index` is 255 in a `uint8_t`, so
the assertion behind it tests nothing; what protects the lookup is that 1x1 blocks are never reached. `mcdc` adds
pixels in pairs, so a carry out of the left pixel leaks into the right one; the meaning of a leaf says so. Buffers are
swapped after every frame, so a skipped pixel is two frames old.

**4X Movie fragments** (`FourXmFragments.dfy`). Frames arrive in interleaved fragments, collected in 100 slots. The
slot table refines a map from frame id to bytes, state by state and outcome by outcome.

**Transcoder steps** (`VideoSync.dfy`, `VideoAccounts.dfy`, `VideoDrift.dfy`, `Muxing.dfy`, `BsfChain.dfy`). Frame rate
conversion with its duplicate and drop accounting and its drift; timestamp repair, frame limit and the queue that holds
packets until the header is written; draining a chain of bitstream filters. Encoders, filters and the muxer are
abstract: a filter is any transduction of packet histories.

**A condition variable from two event semaphores** (`Os2Cond.dfy`), as interleaved atomic steps of any number of
threads. An event semaphore remembers a post until one wait takes it.

**The command line splitter** (`CmdSplit.dfy`). Tokens become options and groups. The grammar of lines is explicit, and
splitting is shown to be the inverse of printing, both ways.

**Two unpackers**: QuickTime 8BPS (`EightBpsRow.dfy`, `EightBps.dfy`, `EightBpsPixels.dfy`), planar PackBits into
interleaved pixels, and 012v (`Zero12v.dfy`), 10-bit samples in 32-bit words with a partial tail group.

`Sums.dfy`, `PrefixCodes.dfy` and `Bytes.dfy` hold what the parts share. Methods follow the loops and field updates of
the C code and are proved equal to functions on values; the theorems are about those functions. Tables are tied to laws
that do not mention them: the zigzag order, the prefix codes of block types, the motion vectors, the factors. `hide`
statements in proofs only keep definitions out of the solver's way.

## Results that differ from what one might expect

- A coefficient block is decoded back exactly if two raw bits are left before it, the decoder's own test: a block whose
  raw bits end the stream needs padding (`FourXmIBlock.BlockRoundTrip`).
- In delta frames before version 2 the maximum with 0 in the size computation never takes effect, the arithmetic being
  unsigned; the test after it rejects exactly the packets it was meant for (`FourXmPHeader.OldSizesIff`).
- A delta frame's type codes are swapped and copied in whole 32-bit words: of a size that is no multiple of four the last
  bytes are never read, and what the buffer held before is read in their place. A frame whose codes fill whole words does
  not notice (`FourXmDeltaPacket.DeltaPacketRoundTrip`).
- 012v with the default stride, floor(8 * width / 3), restores every line only if the width is a multiple of 6;
  otherwise the tail group's last words are taken to be missing and its samples turn grey (`Zero12v.DefaultStrideIff`).
- An 8BPS row ends by its declared length exactly if that many bytes are whole packets with room in the row; a length
  that ends inside a packet wraps around at 2^32 and the row runs on (`EightBpsRow.RowFillsIff`,
  `EightBpsRow.SplitPacketNeverFills`).
- A fragment breaks the slot table's invariant exactly if it leaves bytes under id 0, an empty slot under another id, or
  a slot claimed by a fragment that is then refused for its size (`FourXmFragments.ConsistentIff`).
- The size tests of a key packet ignore the two topmost bits of its second size (`FourXmKeyPacket.CutsIff`).
- The early return for too many duplicates conserves frames only if a frame came in and no held-back frame was counted
  as dropped in the same call; other calls lose what they planned and could not encode (`VideoAccounts.ConservesIff`).
- With a variable start the first frame may move the next output pts to its own time, and the input is then up to one
  frame ahead instead of half a frame (`VideoDrift.DriftStaysBounded`). A drop threshold above that lets the input run
  ahead as far as the threshold: behind the first frame, every frame that is less far ahead is dropped
  (`VideoDrift.ConstantRateCounts`).
- A packet without a decoding time makes the muxing stage forget the last one: decoding times are in order exactly if
  behind each such gap the first one, uncrossed, is in order with the last one muxed before it
  (`Muxing.OrderedIffGapsAre`, with `Muxing.GapLosesOrder` as a run where it is not).
- Signalling without the mutex can hang a signaller (`Os2Cond.UnserialisedSignallersCanHang`).
- No command line can give an unnamed group, such as an output file, the name `--`; a group with a separator, such as
  an input file behind `-i`, takes any name (`CmdSplit.CanBeNamedIff`).

## Model

| member | source | states |
|---|---|---|
| HuffmanTables.RangesRoundTrip | src/ffmpeg/libavcodec/4xm.c:626-643 | any list of weight ranges, printed, is read back with later ranges replacing earlier ones, and nothing behind it is touched |
| HuffmanTables.ReadRanges | src/ffmpeg/libavcodec/4xm.c:626-643 | the in-place range loop fails exactly where the ranges overrun the packet, and else fills the array with the parsed weights and stops behind them |
| HuffmanTables.AlignTo4 | src/ffmpeg/libavcodec/4xm.c:646-647 | the alignment loop advances to the next multiple of four |
| HuffmanTables.ReadWeights | src/ffmpeg/libavcodec/4xm.c:614-652 | ranges, the end mark's weight 1 and the alignment, failing exactly if the weights do not parse or the aligned position is past the end |
| HuffmanTables.ParsedWeights | src/ffmpeg/libavcodec/4xm.c:614-644 | whatever the packet, symbols 0 to 255 weigh less than 256, symbol 256 weighs 1, all other nodes are empty |
| HuffmanForest.Least | src/ffmpeg/libavcodec/4xm.c:658-672 | the first of the lightest live nodes, or none only if no node is live |
| HuffmanForest.Second | src/ffmpeg/libavcodec/4xm.c:658-672 | the next lightest live node after the least, lighter than or before all others |
| HuffmanForest.PickedPair | src/ffmpeg/libavcodec/4xm.c:655-681 | the merged nodes are live, different, and no other live node is lighter than the second |
| HuffmanForest.BuildFrame | src/ffmpeg/libavcodec/4xm.c:654-682 | merging keeps parents above children and never touches a node once it has been consumed or was never live |
| HuffmanForest.TotalMerge | src/ffmpeg/libavcodec/4xm.c:676-681 | a merge conserves the total weight and lowers the number of roots by one |
| HuffmanForest.CanMergeIff | src/ffmpeg/libavcodec/4xm.c:655-674 | below the sentinel the loop goes on exactly while two nodes are live |
| HuffmanForest.RootsLeft | src/ffmpeg/libavcodec/4xm.c:654-682 | one root is left, unless the 255 free nodes run out first; then the count is exact |
| HuffmanDecoder.SmallestTwo | src/ffmpeg/libavcodec/4xm.c:655-672 | the scan's two minima and indices are those of the nodes seen |
| HuffmanDecoder.MergePair | src/ffmpeg/libavcodec/4xm.c:676-681 | the writes of one merge give the merged forest |
| HuffmanDecoder.MergeAll | src/ffmpeg/libavcodec/4xm.c:654-682 | the merge loop on the three arrays gives the built forest |
| HuffmanDecoder.ReadWord | src/ffmpeg/libavcodec/4xm.c:685-697 | the walk to the root collects length and bits of the symbol's word |
| HuffmanDecoder.ReadAllWords | src/ffmpeg/libavcodec/4xm.c:684-698 | both tables hold all words |
| HuffmanDecoder.WordsIgnoreOldFlags | src/ffmpeg/libavcodec/4xm.c:615-615 | the array `flag` starts uninitialised, and no word depends on what it held |
| HuffmanDecoder.ReadHuffmanTables | src/ffmpeg/libavcodec/4xm.c:610-705 | the whole function succeeds exactly if the weights parse, and then returns the words of the built forest and the start of the prefix stream |
| HuffmanCodes.WordsSpell | src/ffmpeg/libavcodec/4xm.c:676-697 | words read from `up` and `flag` extend their parent's word by one bit at every merge |
| HuffmanCodes.LiveWordsPrefixFree | src/ffmpeg/libavcodec/4xm.c:654-698 | with a single root the words of live nodes are prefix-free |
| HuffmanCodes.LiveWordsComplete | src/ffmpeg/libavcodec/4xm.c:654-698 | every long enough bit string starts with the word of a live node |
| HuffmanCodes.MergeKeepsBalance | src/ffmpeg/libavcodec/4xm.c:655-681 | live weights stay at least the consumed ones, and a tree of height h weighs at least Fib(h + 2) |
| HuffmanCodes.DepthPlusHeight | src/ffmpeg/libavcodec/4xm.c:684-694 | depth of a node plus height of the tree under it is at most 22 |
| HuffmanCodes.LengthsAccount | src/ffmpeg/libavcodec/4xm.c:654-698 | the Kraft sum of the words is the number of roots, and their cost is the sum of the merged weights |
| HuffmanOptimal.MergeCostIsLeast | src/ffmpeg/libavcodec/4xm.c:654-682 | any lengths with Kraft sum at most 1 cost at least what the merges add up to |
| HuffmanOptimal.NoPrefixCodeIsShorter | src/ffmpeg/libavcodec/4xm.c:654-698 | so does any prefix code |
| HuffmanTheorems.TotalFits | src/ffmpeg/libavcodec/4xm.c:644-656 | all weights together stay below the sentinel 65536 and below Fib(25) |
| HuffmanTheorems.NoCodeIsLongerThan22 | src/ffmpeg/libavcodec/4xm.c:687-694 | the overflow message is dead: no code has more than 22 bits, whatever the weights |
| HuffmanTheorems.DeadSymbolsHaveNoCode | src/ffmpeg/libavcodec/4xm.c:659-697 | a symbol of weight 0 has length 0 |
| HuffmanTheorems.KraftSum | src/ffmpeg/libavcodec/4xm.c:654-698 | the Kraft sum of the codes is exactly 1, or 2 when all 257 symbols are live |
| HuffmanTheorems.PrefixFreeIff | src/ffmpeg/libavcodec/4xm.c:654-698 | the codes of live symbols are prefix-free exactly when at most 256 symbols are live |
| HuffmanTheorems.CodeIsDecodable | src/ffmpeg/libavcodec/4xm.c:684-702 | with 2 to 256 live symbols a symbol has a code exactly if it is live, and the table can be decoded |
| HuffmanTheorems.DecodingInvertsEncoding | src/ffmpeg/libavcodec/4xm.c:654-702 | prefix-decoding the concatenated codes of any live symbols returns the symbols |
| HuffmanTheorems.EveryPatternDecodes | src/ffmpeg/libavcodec/4xm.c:700-702 | any 22 bits begin with the code of a live symbol |
| HuffmanTheorems.CodeIsOptimal | src/ffmpeg/libavcodec/4xm.c:654-698 | no prefix code for the live symbols has a smaller sum of weight times length |
| HuffmanTheorems.LighterSiblingIsZero | src/ffmpeg/libavcodec/4xm.c:676-681 | of two symbols whose codes differ in the last bit alone, the lighter one, or at equal weights the first, has the 0 |
| FourXmIBlock.ZigzagCell | src/ffmpeg/libavcodec/4xm.c:539-540 | the scan order visits every cell once |
| FourXmIBlock.ZigzagTurns | src/ffmpeg/libavcodec/mathtables.c:98-107 | from each position to the next the order moves on to the next antidiagonal or along its own, down on odd ones and up on even ones: figure A.6 of ITU-T T.81, and with ZigzagCell no other order |
| FourXmIBlock.FactorIsRounded | src/ffmpeg/libavcodec/4xm.c:114-123 | every factor of `dequant_table` is the quantiser of table K.1 of ITU-T T.81 times the premultipliers of its row and column, rounded |
| FourXmIBlock.SignedBits | src/ffmpeg/libavcodec/4xm.c:511-528 | magnitude bits that begin with 1 are their own value, and complementing them negates it |
| FourXmIBlock.MagnitudeRoundTrip | src/ffmpeg/libavcodec/4xm.c:511-528 | the signed value of a level's magnitude bits is the level |
| FourXmIBlock.NextLevel | src/ffmpeg/libavcodec/4xm.c:518-545 | what an encoder prints next: a symbol with run and category, the level's bits, then the rest |
| FourXmIBlock.AcRoundTrip | src/ffmpeg/libavcodec/4xm.c:517-545 | from any position on the AC loop undoes the encoder: runs split by 0xf0, no end mark when coefficient 63 is nonzero |
| FourXmIBlock.DcRoundTrip | src/ffmpeg/libavcodec/4xm.c:499-515 | the DC part returns the predicted DC in 16 bits and takes exactly its symbol and bits |
| FourXmIBlock.BlockRoundTrip | src/ffmpeg/libavcodec/4xm.c:495-548 | decoding a printed block gives its dequantised coefficients and DC and uses exactly its bits of both streams, if and only if two raw bits were left at the start |
| FourXmIBlock.PictureRoundTrip | src/ffmpeg/libavcodec/4xm.c:596-819 | so for any number of blocks in a row, with the DC predictor running through all of them |
| FourXmIBlockDecoder.BitReader.GetXbits | src/ffmpeg/libavcodec/4xm.c:511-528 | n bits are taken and read as a signed magnitude |
| FourXmIBlockDecoder.BlockDecoder.DecodeDc | src/ffmpeg/libavcodec/4xm.c:499-515 | the method on cursors and fields is the DC function |
| FourXmIBlockDecoder.BlockDecoder.DecodeLevel | src/ffmpeg/libavcodec/4xm.c:527-543 | one level, with both error exits and the silent stop past coefficient 63 |
| FourXmIBlockDecoder.BlockDecoder.DecodeAc | src/ffmpeg/libavcodec/4xm.c:518-545 | one round of the AC loop |
| FourXmIBlockDecoder.BlockDecoder.DecodeIBlock | src/ffmpeg/libavcodec/4xm.c:495-548 | the whole function on cursors, block array and `last_dc` is the decoding function |
| FourXmKeyFrame.KeyFrameRoundTrip | src/ffmpeg/libavcodec/4xm.c:790-822 | from weights and bit streams on: with the code built from any 2 to 256 live weights that cover its symbols, every block of a key frame survives, and the next symbol is the end mark 256 |
| FourXmKeyPacket.BytesRoundTrip | src/ffmpeg/libavcodec/4xm.c:798-798 | the raw stream is read bit by bit as it was packed into bytes |
| FourXmKeyPacket.WordsRoundTrip | src/ffmpeg/libavcodec/4xm.c:800-808 | the prefix stream is read bit by bit as it was packed into byte-swapped 32-bit words |
| FourXmKeyPacket.WordsAreSwapped | src/ffmpeg/libavcodec/4xm.c:806-808 | that is the stream of the bytes with every four of them turned round |
| FourXmKeyPacket.CutsIff | src/ffmpeg/libavcodec/4xm.c:768-788 | the size tests, in wrapping 32-bit arithmetic, accept exactly the printed packets, whatever the unread bits, and cut them where raw stream and tables begin |
| FourXmKeyPacket.TablesRoundTrip | src/ffmpeg/libavcodec/4xm.c:614-652 | printed weight ranges, filled up to a multiple of four, give their weights and the stream behind them |
| FourXmKeyPacket.KeyPacketRoundTrip | src/ffmpeg/libavcodec/4xm.c:763-825 | a printed key packet, from its sizes over weight ranges and alignment to both streams, is decoded to every block and its end mark |
| FourXmKeyPacket.EveryPictureHasStreams | src/ffmpeg/libavcodec/4xm.c:614-652 | such a packet exists for any blocks of 16-bit levels: some weight ranges give all their symbols codes, and fewer than 32 and 10 bits fill up the streams |
| FourXmKeyPacket.BlockCount | src/ffmpeg/libavcodec/4xm.c:812-819 | the loops over a picture decode six blocks for each of its macroblocks |
| FourXmKeyPacket.CutStreams | src/ffmpeg/libavcodec/4xm.c:768-788 | the tests in their order give the cut |
| FourXmKeyPacket.BuildVlc | src/ffmpeg/libavcodec/4xm.c:696-702 | lengths and codes give back the words they were read from |
| FourXmKeyPacket.DecodeIMb | src/ffmpeg/libavcodec/4xm.c:596-608 | six blocks on cleared arrays, up to the first failure |
| FourXmKeyPacket.DecodeMbs | src/ffmpeg/libavcodec/4xm.c:812-819 | the loops over rows and columns of macroblocks decode as many blocks as the picture has, in order, up to the first failure |
| FourXmKeyPacket.DecodeIFrame | src/ffmpeg/libavcodec/4xm.c:763-825 | the whole function up to the transform, from packet to blocks and end mark, is the decoding function that KeyPacketRoundTrip is about |
| FourXmPHeader.Fits | src/ffmpeg/libavcodec/4xm.c:454-461 | the wrapping test on the stream sizes accepts exactly sizes that fit as integers |
| FourXmPHeader.OldSizesIff | src/ffmpeg/libavcodec/4xm.c:447-461 | before version 2 a packet is accepted exactly if its two given sizes fit, although the third one wraps around instead of stopping at 0 |
| FourXmPHeader.CutPrinted | src/ffmpeg/libavcodec/4xm.c:440-476 | a packet written with its sizes is cut where its three streams begin |
| FourXmSplitTree.SizeIndex | src/ffmpeg/libavcodec/4xm.c:70-75 | which size has which table; only 1x1 has none, its entry being 255 |
| FourXmSplitTree.TypeWordsDecodable | src/ffmpeg/libavcodec/4xm.c:46-68 | each of the eight code tables is a prefix code |
| FourXmSplitTree.TypeWordsComplete | src/ffmpeg/libavcodec/4xm.c:46-68 | any five bits begin with a word of the table, so the code is never negative |
| FourXmSplitTree.TypeExistsIff | src/ffmpeg/libavcodec/4xm.c:46-68 | which types have a word: all but splits along a single row or column and of two pixels, and pairs only for two pixels |
| FourXmSplitTree.TypeWordsGrow | src/ffmpeg/libavcodec/4xm.c:46-68 | the tables are canonical: in the order of types, skipped blocks first before version 2, words grow in value and never get shorter |
| FourXmSplitTree.TypeWordShape | src/ffmpeg/libavcodec/4xm.c:46-68 | from version 2 on a word is a run of ones ended by one more bit, at most five in all; before, two or three bits |
| FourXmSplitTree.TypeTablesAreGood | src/ffmpeg/libavcodec/4xm.c:46-75 | tables allow a split only where both halves have an index, and pixel pairs exactly on 1x2 and 2x1 |
| FourXmSplitTree.SplitsNeverReachOnePixel | src/ffmpeg/libavcodec/4xm.c:349-375 | recursion never reaches 1x1, so the index is never 255 |
| FourXmSplitTree.CodesTell | src/ffmpeg/libavcodec/4xm.c:376-414 | which codes take a vector, a constant or two pixels off which stream, and that a leaf fails exactly if its stream holds less |
| FourXmSplitTree.ParsePrinted | src/ffmpeg/libavcodec/4xm.c:342-425 | parsing a printed legal tree gives the tree and takes exactly what was printed off all three streams |
| FourXmSplitTree.PrintParsed | src/ffmpeg/libavcodec/4xm.c:342-425 | every successful parse is that of a printed legal tree: streams are split with nothing lost, up to zeros read behind the end |
| FourXmPaint.SourceInside | src/ffmpeg/libavcodec/4xm.c:359-420 | the linear test puts every pixel of the source rectangle into the previous frame |
| FourXmPaint.SourceAllowedIff | src/ffmpeg/libavcodec/4xm.c:359-360 | and is passed by exactly the rectangles all of whose pixels lie in the frame buffer |
| FourXmPaint.OwnPlaceAllowed | src/ffmpeg/libavcodec/4xm.c:412-412 | the assertion on code 5 always holds |
| FourXmPaint.CentricMulLeaks | src/ffmpeg/libavcodec/4xm.c:287-291 | one 32-bit addition raises both pixels, with the low pixel's carry added to the high one |
| FourXmPaint.PairAddIsPixelAddIff | src/ffmpeg/libavcodec/4xm.c:287-291 | adding in pairs is adding per pixel exactly if the low half does not carry |
| FourXmPaint.RowPixelIsRaised | src/ffmpeg/libavcodec/4xm.c:294-340 | each pixel of a copied row is the displaced source pixel raised by the constant, with the leak in odd columns |
| FourXmPaint.LeavesTile | src/ffmpeg/libavcodec/4xm.c:362-375 | the leaves of a legal tree cover each pixel of its block exactly once and no other pixel |
| FourXmFrame.ParsePrintedFrame | src/ffmpeg/libavcodec/4xm.c:480-486 | a printed frame of trees is parsed back block by block, all streams used exactly |
| FourXmDeltaPacket.CutOld | src/ffmpeg/libavcodec/4xm.c:447-476 | before version 2 a packet behind its two sizes is cut where its streams begin |
| FourXmDeltaPacket.WordsThenFew | src/ffmpeg/libavcodec/4xm.c:463-469 | type codes are swapped and read in whole words; up to three bytes behind them are not read |
| FourXmDeltaPacket.DeltaPacketRoundTrip | src/ffmpeg/libavcodec/4xm.c:427-488 | a printed delta packet, in every version, from its sizes over the swapped words to all three streams, decodes to its blocks, whatever pads its type codes and whatever the buffer held before |
| FourXmDeltaPacket.CutStreams | src/ffmpeg/libavcodec/4xm.c:440-476 | sizes, the test on them in wrapping arithmetic, and the offsets, step by step |
| FourXmMotion.VectorsGrow | src/ffmpeg/libavcodec/4xm.c:77-110 | the 256 vectors of the table are in strict order of length, then row, then column |
| FourXmMotion.VectorsDiffer | src/ffmpeg/libavcodec/4xm.c:265-275 | no vector is there twice, in either version |
| FourXmMotion.ReachIsVector | src/ffmpeg/libavcodec/4xm.c:265-275 | an offset is exactly its vector, rows times the width plus columns, although lines are counted in bytes and halved with truncation |
| FourXmMotion.InitMv | src/ffmpeg/libavcodec/4xm.c:265-275 | the loop fills the array with these offsets |
| FourXmPixels.MovedPixel | src/ffmpeg/libavcodec/4xm.c:396-422 | a pixel under a moved leaf, wherever in the tree, means the previous picture's pixel as far away as the leaf's vector says |
| FourXmPixels.RaisedPixel | src/ffmpeg/libavcodec/4xm.c:401-422 | under a moved leaf with a constant, that pixel plus the constant, and the carry of its left neighbour in the leaf's odd columns |
| FourXmPixels.PlainPixel | src/ffmpeg/libavcodec/4xm.c:376-422 | under a filled leaf the constant; under a pair its first pixel at the leaf's corner and else its second; under a skipped one the buffer's old value from version 2 on, and the previous picture's pixel before |
| FourXmPixels.MovedPixelIsShown | src/ffmpeg/libavcodec/4xm.c:396-422 | motion compensation over a whole good frame: what is shown at such a pixel is what was shown at its vector |
| FourXmPixels.VectorPixelIsShown | src/ffmpeg/libavcodec/4xm.c:265-422 | and with the vectors of the file's version, so many rows down and columns right |
| FourXmPixels.RaisedPixelIsShown | src/ffmpeg/libavcodec/4xm.c:396-422 | so for raised pixels, the carry going to odd columns of the picture |
| FourXmPixels.PlainPixelIsShown | src/ffmpeg/libavcodec/4xm.c:376-422 | and for filled, paired and skipped ones |
| FourXmPixels.SourceIsInPicture | src/ffmpeg/libavcodec/4xm.c:359-420 | what a moved pixel of a frame is taken from is always a pixel of the previous picture |
| FourXmPixels.ParsedFrameIsLegal | src/ffmpeg/libavcodec/4xm.c:342-486 | whatever the streams, a frame that parses is made of legal trees, one for each block |
| FourXmPixels.SkippedPixelIsTwoFramesOld | src/ffmpeg/libavcodec/4xm.c:935-954 | with the buffers swapped after each frame, a skipped pixel shows what it showed two frames earlier, from version 2 on |
| FourXmPFrame.PFrameDecoder.PutPair | src/ffmpeg/libavcodec/4xm.c:287-291 | writes the two pixels and no other |
| FourXmPFrame.PFrameDecoder.McdcRow | src/ffmpeg/libavcodec/4xm.c:300-337 | one row, by one pixel or by one, two or four pairs |
| FourXmPFrame.PFrameDecoder.Mcdc | src/ffmpeg/libavcodec/4xm.c:294-340 | the block shows its source rows, and no pixel outside changes |
| FourXmPFrame.PFrameDecoder.ReadCode | src/ffmpeg/libavcodec/4xm.c:351-357 | the code read always exists in the table of the size, and the cursor moves by its word |
| FourXmPFrame.PFrameDecoder.DecodeLeaf | src/ffmpeg/libavcodec/4xm.c:376-425 | a leaf moves the cursors and paints as its parse says, or fails exactly if it does |
| FourXmPFrame.PFrameDecoder.DecodePBlock | src/ffmpeg/libavcodec/4xm.c:342-425 | the recursive function terminates, fails exactly if the parse does, and else paints the meaning of the parsed tree, which `FourXmPixels` tells pixel by pixel, and consumes what the parse consumes; nothing outside the block changes |
| FourXmPFrame.PFrameDecoder.DecodePFrame | src/ffmpeg/libavcodec/4xm.c:480-488 | the block loop shows the meaning of every block |
| FourXmPFrame.PFrameDecoder.DecodeFrame | src/ffmpeg/libavcodec/4xm.c:935-954 | a good frame, made of legal trees, is shown and the buffers change places; a broken one leaves them where they are |
| FourXmPFrame.PFrameDecoder.DecodePacket | src/ffmpeg/libavcodec/4xm.c:427-492 | the same from the packet on: what is decoded is what the packet theorem is about |
| FourXmPFrame.PFrameDecoder.DecodeInit | src/ffmpeg/libavcodec/4xm.c:981-1021 | there is a decoder exactly for dimensions divisible by 16, with two zeroed buffers and the tables of its version |
| FourXmFragments.FragmentTable.Cfrm | src/ffmpeg/libavcodec/4xm.c:849-914 | the branch on the slot array is the slot function with its ways to fail, and finds no slot exactly if the id has none and none is free |
| FourXmFragments.ConsistentIff | src/ffmpeg/libavcodec/4xm.c:873-911 | told from the fragment and the bytes held for its id: exactly which fragments keep slots free iff empty iff id 0, and ids unique, whether completing, pending or refused |
| FourXmFragments.StepRefines | src/ffmpeg/libavcodec/4xm.c:873-914 | a well-formed fragment acts on the table as on the map of frames in flight |
| FourXmFragments.PlaceFoundIff | src/ffmpeg/libavcodec/4xm.c:873-884 | a slot is found exactly if the frame is in flight or fewer than 100 are |
| FourXmFragments.SinceMeans | src/ffmpeg/libavcodec/4xm.c:900-914 | where a frame's fragments begin: behind the last completion for the same id |
| FourXmFragments.HeldIsGathered | src/ffmpeg/libavcodec/4xm.c:897-914 | bytes held for an id are those that arrived for it since its last completed frame, however the ids interleave |
| FourXmFragments.FrameIsItsFragments | src/ffmpeg/libavcodec/4xm.c:897-912 | a completed frame is the arrival-order concatenation of its fragments, at least as long as announced |
| FourXmFragments.FrameIsDoneIff | src/ffmpeg/libavcodec/4xm.c:897-900 | an accepted fragment completes its frame exactly if the bytes since the last completed one reach the size it announces |
| FourXmFragments.TableRefinesFlight | src/ffmpeg/libavcodec/4xm.c:849-914 | over any run with at most 100 ids in flight the table never fails and always represents the map |
| FourXmFragments.TableOutcomes | src/ffmpeg/libavcodec/4xm.c:849-914 | and each fragment of such a run has on the table the outcome it has on the map |
| FourXmFragments.TableFramesAreFragments | src/ffmpeg/libavcodec/4xm.c:897-912 | so a frame the table completes is the arrival-order concatenation of its fragments |
| VideoSync.LengthIsKnownIff | src/ffmpeg/fftools/ffmpeg.c:1063-1086 | a frame has a positive length exactly if the filter's rate or, without filters, its packet tells one |
| VideoSync.LengthIsPeriod | src/ffmpeg/fftools/ffmpeg.c:1063-1086 | the length of a frame in ticks: its packet's duration to the nearest tick, if that is positive and there are no filters, else the period of the rate in force, else 0 |
| VideoSync.TicksOfRate | src/ffmpeg/fftools/ffmpeg.c:1068-1073 | a period in ticks times rate and tick is 1 |
| VideoSync.MidPredIsMedian | src/ffmpeg/fftools/ffmpeg.c:1088-1092 | what a flush takes is the median of three counts: one of them, two of the three being at most it and two at least |
| VideoSync.AutomaticChoice | src/ffmpeg/fftools/ffmpeg.c:1101-1116 | automatic choice is a constant-rate method exactly for containers that need one, lets the start vary exactly for unshifted inputs alone in their file and for copied timestamps, passes timestamps through exactly for variable-rate containers without them, and leaves an explicit choice alone |
| VideoSync.Clip | src/ffmpeg/fftools/ffmpeg.c:1119-1130 | clipping keeps the sum of start and duration |
| VideoSync.EmitCounts | src/ffmpeg/fftools/ffmpeg.c:1196-1337 | the emit loop advances pts, frame count and encoder count together, with consecutive pts |
| VideoSync.EmitPictures | src/ffmpeg/fftools/ffmpeg.c:1205-1208 | the first nb0_frames pictures repeat the previous frame if there is one, the others show the new one |
| VideoAccounts.PlannedRange | src/ffmpeg/fftools/ffmpeg.c:1088-1168 | 0 <= nb0_frames <= nb_frames <= what the limit leaves, equal on a flush |
| VideoAccounts.EmitsEncodable | src/ffmpeg/fftools/ffmpeg.c:1196-1337 | the emit loop encodes as many frames as the picture at hand and the end of the recording allow |
| VideoAccounts.CallBalances | src/ffmpeg/fftools/ffmpeg.c:1167-1345 | any call, however it ends, raises the balance by the frame received less the frames lost, which are told from its inputs |
| VideoAccounts.ConservesIff | src/ffmpeg/fftools/ffmpeg.c:1167-1345 | told from its inputs: exactly when a call conserves frames, the early return for too many duplicates included |
| VideoAccounts.RunConserves | src/ffmpeg/fftools/ffmpeg.c:1167-1333 | over any run on any streams, flushes, cut loops and early returns included: encoded = received + duplicates - drops - held back - lost |
| VideoAccounts.CompleteRunLosesNothing | src/ffmpeg/fftools/ffmpeg.c:1167-1333 | and nothing is lost in a run whose calls all run their emit loop to the end |
| VideoAccounts.FinalReportBalances | src/ffmpeg/fftools/ffmpeg.c:1755-1756 | after the last report encoded = received + duplicates - drops - lost |
| VideoDrift.DecideDrift | src/ffmpeg/fftools/ffmpeg.c:1094-1151 | the rule for both constant-rate methods leaves the drift within its bounds, whatever the drop threshold, and moves the next pts only on a first frame with variable start |
| VideoDrift.DriftStaysBounded | src/ffmpeg/fftools/ffmpeg.c:1094-1333 | over any constant-rate run, with or without variable start and drop threshold, output pts are consecutive and the drift stays at least -2.1 and at most 0.5 or the drop threshold, or 1.0 right after a jump |
| VideoDrift.OutputTracksInput | src/ffmpeg/fftools/ffmpeg.c:1094-1333 | for both methods the number of frames encoded follows the input time since the first of them to within 2.1 frames, or the drop threshold |
| VideoDrift.ConstantRateCounts | src/ffmpeg/fftools/ffmpeg.c:1133-1151 | at a constant rate a frame is left out exactly if it is 1.1 too late, or behind the first and below a drop threshold; a frame that ends more than 1.1 after the next pts goes out as often as that is, to half a frame, any other once |
| VideoDrift.FirstFrameJumps | src/ffmpeg/fftools/ffmpeg.c:1119-1143 | exactly a first frame with variable start that is half a frame ahead moves the next pts, to its own time, and goes out for its length without repeats before it |
| VideoDrift.VariableRatePlaces | src/ffmpeg/fftools/ffmpeg.c:1152-1157 | at a variable rate a frame is left out exactly if it ends 0.6 before its turn, and else goes out once, within 0.6 of its time or its turn, whichever is later, and within half a frame if it ends more than 0.6 after it |
| VideoDrift.PassedThrough | src/ffmpeg/fftools/ffmpeg.c:1158-1161 | the other methods output every frame once within half a frame of its time |
| VideoDrift.PictureGoesOut | src/ffmpeg/fftools/ffmpeg.c:1152-1337 | so that is what a whole call hands to the encoder: this picture, once, at that time |
| VideoDrift.PlanNeverGoesBack | src/ffmpeg/fftools/ffmpeg.c:1119-1161 | only the methods that pass timestamps through can move the next output pts back |
| VideoDrift.PtsStrictlyIncrease | src/ffmpeg/fftools/ffmpeg.c:1094-1333 | for the other methods output pts strictly increase over any run, whatever the input times and however calls end |
| VideoDrift.RepeatsFillTheGap | src/ffmpeg/fftools/ffmpeg.c:1133-1151 | for both constant-rate methods a new picture is first shown at most 1.1 before its time, and repeats of the old one stop at least 0.1 before it |
| VideoDrift.LastIsRemembered | src/ffmpeg/fftools/ffmpeg.c:1167-1345 | what the next call finds: the picture of this one, unless it was cut short, and the last three numbers of repeats |
| VideoDrift.RepeatsShowPrevious | src/ffmpeg/fftools/ffmpeg.c:1205-1345 | repeats of a call show the picture of the call before, the other frames its own |
| VideoDrift.FlushRepeatsMedian | src/ffmpeg/fftools/ffmpeg.c:1088-1092 | after any three calls a flush repeats as many frames as the median of their repeats, within the limit |
| VideoDrift.DuplicatesAreLimited | src/ffmpeg/fftools/ffmpeg.c:1182-1189 | no call encodes more frames than thirty times the error threshold, or two, and one that plans more returns early |
| VideoSync.OutputStream.EmitFrames | src/ffmpeg/fftools/ffmpeg.c:1196-1337 | the loop on the stream's fields is the emit function |
| VideoSync.OutputStream.ComputeLength | src/ffmpeg/fftools/ffmpeg.c:1063-1086 | the three sources of a length, tried in turn |
| VideoSync.OutputStream.ChooseSync | src/ffmpeg/fftools/ffmpeg.c:1101-1116 | the choice of a method, step by step |
| VideoSync.OutputStream.DecideInPlace | src/ffmpeg/fftools/ffmpeg.c:1094-1165 | clipping and the switch, which falls through from the variable start to the constant rate, updating delta0, delta, duration and sync_opts in place, give the decision function of the laws above |
| VideoSync.OutputStream.PlanFrames | src/ffmpeg/fftools/ffmpeg.c:1088-1173 | the decision, limited, with last_nb0_frames shifted |
| VideoSync.OutputStream.Convert | src/ffmpeg/fftools/ffmpeg.c:1167-1347 | counters, early return, emit loop and the frame kept on the fields are the call function |
| VideoSync.OutputStream.DoVideoOut | src/ffmpeg/fftools/ffmpeg.c:1052-1347 | the whole function: length, method, decision and loop on the stream's fields and the shared counters |
| Muxing.GuessIsMedian | src/ffmpeg/fftools/ffmpeg.c:770-773 | the replacement for crossed timestamps is the median of pts, dts and last + 1 |
| Muxing.RepairOrders | src/ffmpeg/fftools/ffmpeg.c:763-798 | for video, audio and subtitles that are not copied VP9, timestamps being wanted: a repaired packet is the same packet, after its predecessor, and not presented before it is decoded |
| Muxing.UnchangedIffInOrder | src/ffmpeg/fftools/ffmpeg.c:763-798 | exactly the packets already in order pass unchanged |
| Muxing.CrossedBecomeMedian | src/ffmpeg/fftools/ffmpeg.c:763-797 | crossed timestamps become the median, raised to the first free one if need be |
| Muxing.LateIsRaised | src/ffmpeg/fftools/ffmpeg.c:779-796 | an uncrossed packet behind its predecessor goes out at the first free time, its pts raised to it if lower, or ends the program if errors are fatal |
| Muxing.AbortsIff | src/ffmpeg/fftools/ffmpeg.c:779-792 | exactly when a packet ends the program, told from its own timestamps |
| Muxing.StrippedOrUnwanted | src/ffmpeg/fftools/ffmpeg.c:735-763 | stripped packets carry no timestamps, and a muxer without timestamps gets every other packet as it is |
| Muxing.UnguardedOnlyUncrosses | src/ffmpeg/fftools/ffmpeg.c:763-777 | data streams and copied VP9 are uncrossed but never moved behind their predecessor |
| Muxing.UnguardedRunPasses | src/ffmpeg/fftools/ffmpeg.c:763-777 | so over any run of them, uncrossed packets pass as they are |
| Muxing.NothingAborts | src/ffmpeg/fftools/ffmpeg.c:787-792 | unless errors are fatal no packet of a run ends the program |
| Muxing.RunIsOrdered | src/ffmpeg/fftools/ffmpeg.c:763-798 | over any run of packets with decoding times these strictly increase, or never decrease for a lenient muxer, and pts >= dts |
| Muxing.OrderedIffGapsAre | src/ffmpeg/fftools/ffmpeg.c:735-798 | over any run, packets without a decoding time included, decoding times are in order exactly if the first one behind each gap, uncrossed, is in order with the last one handed over before it |
| Muxing.GapLosesOrder | src/ffmpeg/fftools/ffmpeg.c:774-798 | a witness that this can fail: a packet without a decoding time between two others lets an out-of-order one pass |
| Muxing.FlushRepairsQueue | src/ffmpeg/fftools/ffmpeg.c:2995-3006 | the flush hands over the whole queue in order, repaired, and leaves it empty |
| Muxing.OverflowIff | src/ffmpeg/fftools/ffmpeg.c:715-726 | the queue overflows exactly when it holds the larger of eight and the limit |
| Muxing.RunIsAccounted | src/ffmpeg/fftools/ffmpeg.c:703-798 | a run ends the program exactly when it must; else the packets within the frame limit, which encoded video alone does not have here, are all queued before the header, and all muxed in order after it, each counted once |
| Muxing.HeaderTimeDoesNotMatter | src/ffmpeg/fftools/ffmpeg.c:713-733 | the muxer is handed the same packets whenever in a run the header is written |
| Muxing.MuxedInOrder | src/ffmpeg/fftools/ffmpeg.c:703-798 | what the muxer is handed over a whole run is in order |
| Muxing.MuxedInOrderIff | src/ffmpeg/fftools/ffmpeg.c:703-798 | and over any run with timestamps, in order exactly if its gaps are |
| Muxing.OutputStream.WritePacket | src/ffmpeg/fftools/ffmpeg.c:686-815 | the function on the stream's fields: limit, count, queue with its growth, or muxing |
| Muxing.OutputStream.MuxPacket | src/ffmpeg/fftools/ffmpeg.c:735-815 | the repair on fields is the repair function |
| Muxing.OutputStream.FlushQueue | src/ffmpeg/fftools/ffmpeg.c:3002-3006 | the loop empties the queue as the flush function says |
| Muxing.OutputFile.CheckInitOutputFile | src/ffmpeg/fftools/ffmpeg.c:2970-3010 | nothing happens until all streams are initialized and the header is accepted; then every stream is flushed |
| BsfChain.ReceiveAccounts | src/ffmpeg/libavcodec/bsf.c:211-236 | asking a filter loses nothing: output handed on and pending is always what it made of its history |
| BsfChain.PassKeepsLinked | src/ffmpeg/fftools/ffmpeg.c:861-884 | a round never sends to a filter that still has work, loses and reorders nothing, and never lets the end overtake a packet |
| BsfChain.PassArrived | src/ffmpeg/fftools/ffmpeg.c:861-884 | exactly the packet fetched arrives at the next stage |
| BsfChain.PassMakesProgress | src/ffmpeg/fftools/ffmpeg.c:861-884 | each round brings a packet one stage further, ends one more filter, or steps back |
| BsfChain.ArrivedIsPrefix | src/ffmpeg/fftools/ffmpeg.c:861-884 | at every stage only a prefix of what will arrive has arrived |
| BsfChain.DrainedReachesGoal | src/ffmpeg/fftools/ffmpeg.c:861-884 | once all filters are idle, or finished, each stage has seen all that the earlier filters make of the input |
| BsfChain.GoalIsComposition | src/ffmpeg/fftools/ffmpeg.c:874-883 | what arrives behind the last filter is the composition of the transductions |
| BsfChain.ThroughExtends | src/ffmpeg/fftools/ffmpeg.c:874-883 | later input only adds to what the muxer was handed |
| BsfChain.SendAccounts | src/ffmpeg/libavcodec/bsf.c:185-209 | a packet or end sent to an idle filter is accepted, and output handed on and pending is still what it made of its history |
| BsfChain.OutputStream.Round | src/ffmpeg/fftools/ffmpeg.c:861-884 | one turn of the loop on the filter contexts |
| BsfChain.OutputStream.OutputPacket | src/ffmpeg/fftools/ffmpeg.c:846-895 | the loop terminates, no send is refused, the muxer has been handed exactly the composition on all input so far, and an end reaches every filter exactly once and leaves nothing pending |
| Os2Cond.RunInv | src/ffmpeg/compat/os2threads.h:148-182 | the invariant holds in every state of every run with serialised signallers |
| Os2Cond.TokensTellAwaiting | src/ffmpeg/compat/os2threads.h:148-182 | outstanding posts, unacknowledged wakeups and unread acknowledgements sum to 1 exactly while a signaller waits, else to 0 |
| Os2Cond.HolderSeesQuiet | src/ffmpeg/compat/os2threads.h:148-182 | a mutex holder finds both semaphores down and the counter equal to the number of waiters |
| Os2Cond.EachSignalWakesOne | src/ffmpeg/compat/os2threads.h:148-182 | whenever no signaller waits, signals completed, events posted and waiters woken agree |
| Os2Cond.SignalWakesOne | src/ffmpeg/compat/os2threads.h:148-156 | over any run, from the moment a signaller begins until it returns, exactly one waiter is woken if anybody waits, and else none |
| Os2Cond.NoPostIsLost | src/ffmpeg/compat/os2threads.h:151-177 | neither semaphore is ever posted twice before it is taken |
| Os2Cond.SignallerIsNeverStuck | src/ffmpeg/compat/os2threads.h:148-156 | a waiting signaller has its acknowledgement, or some waiter can move |
| Os2Cond.BroadcastProgresses | src/ffmpeg/compat/os2threads.h:158-164 | every step of any thread brings a broadcast nearer its end, which comes with wait_count 0 and nobody waiting |
| Os2Cond.SignalProgresses | src/ffmpeg/compat/os2threads.h:148-156 | every step of any thread brings a signal nearer its return |
| Os2Cond.SignalEnds | src/ffmpeg/compat/os2threads.h:148-156 | no schedule keeps a signal going for more than six steps |
| Os2Cond.CallerIsNeverStuck | src/ffmpeg/compat/os2threads.h:148-164 | while a signal or a broadcast runs some thread can take a step |
| Os2Cond.SerialisedNeverHang | src/ffmpeg/compat/os2threads.h:148-182 | in no run with serialised signallers does anybody hang |
| Os2Cond.BroadcastEnds | src/ffmpeg/compat/os2threads.h:158-164 | no schedule keeps a broadcast going beyond its measure |
| Os2Cond.UnserialisedSignallersCanHang | src/ffmpeg/compat/os2threads.h:148-156 | a run in which two signallers without the mutex see one waiter and one of them hangs |
| Os2Once.InitRunsOnce | src/ffmpeg/compat/os2threads.h:184-199 | in every run the routine is begun at most once, and whoever has returned finds it finished |
| CmdSplit.MatchGroupSeparator | src/ffmpeg/fftools/cmdutils.c:642-654 | the first kind of group with the separator, or -1 |
| CmdSplit.FindOption | src/ffmpeg/fftools/cmdutils.c:218-229 | the first entry whose name is the key up to its colon, or the end of the table |
| CmdSplit.LegalIffRead | src/ffmpeg/fftools/cmdutils.c:768-842 | an item can stand before some tokens exactly if it is what is read there |
| CmdSplit.ReadIsPrinted | src/ffmpeg/fftools/cmdutils.c:768-842 | the tokens an item takes are exactly how it prints |
| CmdSplit.SplitPrinted | src/ffmpeg/fftools/cmdutils.c:753-857 | printing legal items and splitting does exactly what the items say |
| CmdSplit.SplitConsumes | src/ffmpeg/fftools/cmdutils.c:753-857 | on every success each token is consumed exactly once, in order |
| CmdSplit.SplitsIff | src/ffmpeg/fftools/cmdutils.c:753-857 | exactly the printed forms of legal items can be split, each in one way |
| CmdSplit.ErrorsMean | src/ffmpeg/fftools/cmdutils.c:784-842 | which error an item can end in, told from its tokens and the tables: a missing argument, a refused library option, an unknown name |
| CmdSplit.FailsAtFirstBad | src/ffmpeg/fftools/cmdutils.c:753-857 | a split that fails read legal items up to the first bad one and fails with its error |
| CmdSplit.OptsAreStored | src/ffmpeg/fftools/cmdutils.c:693-706 | options go to the globals or the current group as their flags say, in order |
| CmdSplit.GroupIsStored | src/ffmpeg/fftools/cmdutils.c:662-690 | a printed group becomes one group of its kind and leaves the current group empty |
| CmdSplit.LineRoundTrip | src/ffmpeg/fftools/cmdutils.c:753-857 | any well-formed globals and groups, and an exit option without its argument at the end, printed and split, come back in order |
| CmdSplit.UnnamedIsNotDashes | src/ffmpeg/fftools/cmdutils.c:772-796 | no successful split, of any tokens from any state, closes an unnamed group under the name `--` |
| CmdSplit.CanBeNamedIff | src/ffmpeg/fftools/cmdutils.c:772-796 | some command line gives a group a name exactly if the group has a separator or the name is not `--` |
| CmdSplit.OptionParseContext.FinishGroup | src/ffmpeg/fftools/cmdutils.c:662-690 | the current group is appended to its list and cleared |
| CmdSplit.OptionParseContext.AddOpt | src/ffmpeg/fftools/cmdutils.c:693-706 | one option appended to the globals or the current group |
| CmdSplit.OptionParseContext.ReadDashed | src/ffmpeg/fftools/cmdutils.c:784-842 | separators, options, library options and negated booleans, tried in this order |
| CmdSplit.OptionParseContext.SplitCommandline | src/ffmpeg/fftools/cmdutils.c:753-857 | the loop over optindex and dashdash is the splitting function, errors included |
| EightBpsRow.PacketsOfCode | src/ffmpeg/libavcodec/8bps.c:94-120 | bytes made of whole packets are cut into these packets |
| EightBpsRow.CodeOfPackets | src/ffmpeg/libavcodec/8bps.c:94-120 | and only such bytes |
| EightBpsRow.PacketsFill | src/ffmpeg/libavcodec/8bps.c:94-120 | whole packets with room for their content are decoded exactly to the declared end |
| EightBpsRow.RowFillsIff | src/ffmpeg/libavcodec/8bps.c:94-120 | a row ends by its declared length exactly if these bytes are whole packets that fit |
| EightBpsRow.SplitPacketNeverFills | src/ffmpeg/libavcodec/8bps.c:97-117 | a length that ends inside a packet never ends the row |
| EightBpsRow.OverlongRow | src/ffmpeg/libavcodec/8bps.c:99-111 | a row whose next packet has no room left stops there, one byte into it, behind all that whole packets before it drew |
| EightBpsRow.TruncatedRow | src/ffmpeg/libavcodec/8bps.c:96-103 | data that ends inside a packet before the row does is invalid |
| EightBpsRow.SignedCount | src/ffmpeg/libavcodec/8bps.c:97-112 | the first byte of a packet as a signed number n: n + 1 bytes as they are, or one byte 1 - n times |
| EightBpsRow.RowKeepsOthers | src/ffmpeg/libavcodec/8bps.c:94-120 | whatever its bytes, a row changes only every px_inc-th byte from its start, within the row |
| EightBps.Paletted | src/ffmpeg/libavcodec/8bps.c:152-156 | one plane: bytes of a pixel have places of their own |
| EightBps.Rgb24 | src/ffmpeg/libavcodec/8bps.c:81-163 | three planes in three or four bytes a pixel, each with a place of its own |
| EightBps.Rgb32 | src/ffmpeg/libavcodec/8bps.c:164-180 | four planes in four bytes a pixel, each with a place of its own |
| EightBps.PaintShows | src/ffmpeg/libavcodec/8bps.c:82-122 | rows show their own bytes and disturb no other row or plane |
| EightBps.DecodesFrom | src/ffmpeg/libavcodec/8bps.c:82-122 | every encoded row is read exactly to its declared end, the last one to the packet's end |
| EightBps.PictureRoundTrip | src/ffmpeg/libavcodec/8bps.c:76-122 | whatever packets its rows are cut into, every byte k of every row of every plane p is at planemap[p] + px_inc * k |
| EightBpsPixels.DecodeInit | src/ffmpeg/libavcodec/8bps.c:144-181 | pixel format, planes and plane map by sample depth, or none |
| EightBpsPixels.PlaneByte | src/ffmpeg/libavcodec/8bps.c:76-122 | each sample of a decoded picture is at its pixel's place plus the plane's |
| EightBpsPixels.Rgb24Pixel | src/ffmpeg/libavcodec/8bps.c:157-163 | with three planes each pixel of a decoded picture is the colour red, green, blue of the planes in order, in three bytes or the low three of four |
| EightBpsPixels.Rgb32Pixel | src/ffmpeg/libavcodec/8bps.c:164-180 | and with four, that colour and the alpha of the last plane in the fourth byte |
| EightBps.CopyLiteral | src/ffmpeg/libavcodec/8bps.c:104-107 | the inner loop scatters the bytes of a literal |
| EightBps.CopyRun | src/ffmpeg/libavcodec/8bps.c:112-115 | the inner loop scatters a repeated byte |
| EightBps.DecodeLiteral | src/ffmpeg/libavcodec/8bps.c:97-107 | the literal branch with its two exits |
| EightBps.DecodeRepeat | src/ffmpeg/libavcodec/8bps.c:108-118 | the run branch with its exit |
| EightBps.DecodeRowInPlace | src/ffmpeg/libavcodec/8bps.c:94-120 | the loop over a row's packets, with dlen on 32 bits |
| EightBps.DecodeFrame | src/ffmpeg/libavcodec/8bps.c:76-122 | the loops over planes and rows |
| Zero12v.FieldsOfPacked | src/ffmpeg/libavcodec/012v.c:96-100 | shifts and mask give back the three samples of a word |
| Zero12v.SamplesInterleave | src/ffmpeg/libavcodec/012v.c:93-126 | the three samples of each word in order are the pixels' samples interleaved U Y V Y |
| Zero12v.GreyIsHalf | src/ffmpeg/libavcodec/012v.c:72-74 | what stands for a missing sample is half of full scale |
| Zero12v.WholeGroup | src/ffmpeg/libavcodec/012v.c:82-92 | with six pixels left the line still has sixteen bytes, so the temporary arrays serve only the tail |
| Zero12v.GroupsFit | src/ffmpeg/libavcodec/012v.c:46-58 | so for the stride chosen in either way |
| Zero12v.UnpackInvertsPack | src/ffmpeg/libavcodec/012v.c:70-136 | unpacking inverts packing for every width, tails included, if the line has its needed bytes |
| Zero12v.SurviveIff | src/ffmpeg/libavcodec/012v.c:70-136 | and for no smaller stride |
| Zero12v.DefaultStrideIff | src/ffmpeg/libavcodec/012v.c:46-46 | the default stride is enough exactly for widths divisible by six; sixteen bytes per started group always are |
| Zero12v.StrideIs | src/ffmpeg/libavcodec/012v.c:46-56 | the stride of a 012v packet that divides into equal lines, wide enough, is the length of these lines, and in every other case the default |
| Zero12v.DecodeGroup | src/ffmpeg/libavcodec/012v.c:93-126 | stores the samples of the words that lie within the line and leaves the others alone |
| Zero12v.DecodeLine | src/ffmpeg/libavcodec/012v.c:70-136 | a line's samples are in its rows of the three planes, missing ones grey, and nothing else changes but one byte behind an even tail |
| Zero12v.DecodeFrame | src/ffmpeg/libavcodec/012v.c:38-146 | rejects exactly small dimensions and short packets; else all lines are decoded |
| Zero12v.PictureSurvives | src/ffmpeg/libavcodec/012v.c:38-146 | packed lines with room come out of a decoded frame sample by sample |
| Zero12v.PacketSurvives | src/ffmpeg/libavcodec/012v.c:38-146 | any lines of one length with the needed bytes, put together, are accepted and shown, every sample of every line, at the stride the packet itself tells |
| Zero12v.PackedPictureSurvives | src/ffmpeg/libavcodec/012v.c:38-146 | so every picture, packed line by line, is accepted and restored whole |

## Left out

- Opening and closing files and devices, demuxing, encoding, filter graphs, `av_fifo` and the muxer itself: library calls, represented by what they are given.
- Allocation failure, logging, `exit_program`, benchmarks, statistics and progress printing.
- 4X Movie: `idct`, colour conversion, `decode_i2_frame` and `mix`: approximations without a crisp exact meaning, or easy.
- 4X Movie: the chunk header of `decode_frame`.
- FourXmIBlockDecoder.BlockDecoder.DecodeDc: a stream that ends inside the DC symbol or its bits gives `Overread`, as in DecodeIBlock.
- FourXmIBlockDecoder.BlockDecoder.DecodeLevel: a raw stream that ends inside a level gives `Overread`, as in DecodeIBlock.
- FourXmIBlockDecoder.BlockDecoder.DecodeAc: a prefix stream that ends inside a symbol gives `Overread`, as in DecodeIBlock.
- FourXmKeyPacket.DecodeIFrame: with all 257 symbols live the codes overlap, and what the library's table builder makes of them is not modelled, nor is a code of one live symbol, whose word is empty; `PrefixFreeIff` says when codes do not overlap.
- FourXmKeyPacket.DecodeIFrame: the transform of the decoded blocks into pixels is left out.
- FourXmIBlockDecoder.BlockDecoder.DecodeIBlock: a stream that ends inside a symbol or a level stops the model with `Overread`; the values a bit reader delivers behind its end are not modelled for key frames.
- FourXmPFrame.PFrameDecoder.DecodeInit: the size of the extra data, from which the version is taken, and the library's check of the dimensions are left out.
- FourXmPFrame.PFrameDecoder.ReadCode: behind its end the type stream delivers zeros, as the reader's zero padding does; how far that padding reaches is not modelled.
- FourXmFragments.FragmentTable.Cfrm: without a slot the code indexes the table with -1; the outcome is then `NoSlot` and nothing is said of the table. `PlaceFoundIff` says when that is.
- FourXmFragments.FragmentTable.Cfrm: warnings about lost frames and reallocation of slot buffers are not modelled.
- VideoSync.OutputStream.DoVideoOut: rates, time bases, packet length and flags are inputs; numbers are reals and `lrint` is exact rounding to nearest.
- VideoDrift.DriftStaysBounded: assumes a run that meets neither the frame limit nor an early end of the loop, behind which nothing more is encoded and the drift grows with the input.
- Muxing.OutputStream.MuxPacket: timestamps are those after rescaling to the stream's time base, and mathematical integers with one least value for none; overflow of the 64-bit sum in the guess, quality side data and packet durations are not modelled.
- BsfChain.OutputStream.OutputPacket: filters are proper transductions, without errors of their own and without blank packets in the middle of a stream; the error exit is not modelled.
- Os2Cond.RunInv: steps are atomic and sequentially consistent; timed waits, interrupts and destruction are not modelled.
- CmdSplit.OptionParseContext.SplitCommandline: the library's verdict on an option and the next token is a fixed function, and accepted ones are listed instead of merged into dictionaries; Windows argument conversion is not modelled.
- EightBps.DecodeFrame: palettes and big-endian machines are not modelled; table sizes are unbounded integers, only `dlen` has its 32 bits.
- EightBps.PictureRoundTrip: rows longer than the picture's line are out of its scope; `RowFillsIff` says when a row does not fit, and `OverlongRow` where it stops.
- Zero12v.DecodeFrame: the codec tag check at initialization and buffer allocation are not modelled; products of dimensions are unbounded integers.
- `aac_ac3_parser.c`, `8svx.c`, `getopt.c`, `strtod.c` and the option, filter and hardware files: smaller, or mostly tables and wiring.
