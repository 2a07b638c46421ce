# KVM switcher: the video path, proved

The program connects browsers to the remote console of server boards. A client reads the IVTP byte stream of a
board and reassembles video frames; a decoder turns each compressed frame into a picture that persists from frame
to frame; a VNC bridge shows the picture to any number of viewers, one of whom controls keyboard and mouse. This
project models that path and proves what it is meant to guarantee, layer by layer. Each layer is a fast or
stateful form of something simple, and the proofs connect the two.

| file | layer |
|---|---|
| `Bits`, `BitReader` | the two-register bit reader is an absolute position in a bit stream |
| `Tables`, `Huffman`, `Entropy` | the 64K lookup tables are the canonical codes of Annex C of ITU-T T.81; decoding inverts a reference encoder |
| `Idct`, `Transform`, `Colour` | fixed-point inverse DCT against the double sum it approximates, masked range table, integer colour conversion |
| `Canvas`, `Painting`, `Picture`, `History`, `Undo`, `Raster` | what tiles do to picture and reference samples: pixel history in both chroma modes, drift, rollback, raster order |
| `Placement` | the tile grid of a picture, and where blocks without a position go |
| `Frames`, `FrameLaws`, `FrameCoding`, `Transmission` | the block loop as a function of the data; termination; a reference encoder of whole frames, complete or given up, and its round trip |
| `Failures` | headers and byte strings on which the decoder does not do what one might expect |
| `Decoding`, `Decoder` | `Decode` as a function of state, header and data, and the decoder object that refines it in place |
| `Ivtp`, `VideoHeader`, `Client` | message framing, tunnel response, fragment reassembly, the session loop |
| `Viewers`, `ViewerHistory` | viewer control with timers: the registry and its invariants, and who has control told from the history of events |
| `Notify`, `Breaker` | frame wakeups, circuit breaker |
| `Bridge` | what the bridge does to the picture after each frame, including the blanking after a size change |
| `Vnc`, `Display` | what a VNC client reads, and the path from delivered frames through the bridge to it |

The imperative code is modelled as classes and array methods whose postconditions equate the new state with a
function of the old one; the laws are lemmas about those functions. Where a desired law is false of the code,
the project proves exactly when it holds and gives an input on which it fails:

- The range table answers 0 instead of 255 for a shifted sum of 511 (`Idct.LimitIsClampExactly`). Every quantisation
  table with a DC entry of at least 2 has a codable block that gets there: bytes that should be white decode to
  black (`Failures.WhiteTurnsBlack`).
- Restoring an aborted frame goes through the log from its first entry to its last, so a tile visited twice keeps
  the content of the first visit (`Undo.RollbackExactly`). There are bytes that fail to decode and change the
  picture all the same (`Failures.AbortChangesPicture`).
- A neutral tile sets the reference to grey even in a difference block. A frame that shows a difference to the
  old reference and then replaces that reference changes when it is decoded again (`History.NoDriftExactly`; on
  bytes, `Failures.CompleteFrameDrifts`).
- The block loop ends on every buffer only if the header announces no more words than there are
  (`FrameLaws.TerminationExactly`). Because the reader is two words ahead, a block is decoded if and only if it
  starts before the last two announced words (`FrameCoding.BegunExactly`): a header that announces exactly the
  words of its blocks loses the last one (`Failures.LosesLastBlock`).
- Fragment numbers have 15 bits, and number zero empties the frame buffer: a frame of more than 32768 fragments
  loses its beginning (`IvtpClient.FrameExactly`, `IvtpClient.TooManyFragments`).
- The read loop panics if and only if it comes to a session-validation response without payload
  (`IvtpClient.PanicsExactly`, `IvtpClient.EmptyResponsePanics`).
- A viewer who is denied and asks again can be granted control early by the first request's timer
  (`Viewers.RequestSafeExactly`, `Viewers.StaleTimerGrants`).
- The control invariant holds throughout a run if and only if every viewer joins under a non-empty id that is not
  present (`Viewers.ControlledExactly`); from any state that holds an id twice, some continuation leaves a
  controller who is not connected (`Viewers.RepeatedIdLosesControl`). The caller takes the id from the request
  (internal/api/websocket.go:119) and replaces only an empty one.
- After a size change later than the first frame the bridge clears the picture after each of the next three complete
  frames, so viewers read black until then and afterwards only what later frames draw (`VideoBridge.DeliverExactly`,
  `Display.ViewersSeeBlack`, `Display.ViewersSeeFrames`).
- After a viewer leaves, its frame sender receives from a closed channel and never blocks on it again until it
  returns (`FrameNotification.SenderNeverWaitsAgain`, `FrameNotification.SenderOutlivesClient`).
- A frame that fails to decode notifies nobody. The picture is newer than every notification exactly when such a
  frame has changed it since the last one that decoded (`FrameNotification.UnannouncedExactly`). And a sender spends
  the wakeup for a new size on a resize message. A viewer is behind with nothing to wake its sender exactly for one
  of these two reasons (`FrameNotification.BehindExactly`, `FrameNotification.FailureLeavesBehind`,
  `FrameNotification.ResizeLeavesBehind`).

## Model

| member | source | states |
|---|---|---|
| `Bits.ShlIsMultiplication` | internal/ikvm/bitstream.go:40-46 | a left shift of a machine word multiplies by a power of two modulo its width |
| `Bits.ShrIsDivision` | internal/ikvm/bitstream.go:28-44 | a right shift divides by a power of two |
| `Bits.FieldIsShiftAndMask` | internal/ikvm/decoder.go:339-341 | a bit field is what shifting and masking yields |
| `BitReading.MakeIntArray` | internal/ikvm/bitstream.go:8-21 | the loop yields the little-endian words of the zero-padded bytes |
| `BitReading.WordsAreLittleEndian` | internal/ikvm/bitstream.go:8-21 | each word denotes the number its four bytes denote least significant first |
| `BitReading.At` | internal/ikvm/bitstream.go:32-48 | the registers are a function of buffer and bit position, with 1 to 32 fresh bits and an index pinned at the buffer's end |
| `Bits.PastTheEnd` | internal/ikvm/bitstream.go:35-38 | past its end the stream repeats the last word |
| `BitReading.BitReader.Seed` | internal/ikvm/decoder.go:265-268 | seeding with the first two words is position zero |
| `BitReading.BitReader.LookKbits` | internal/ikvm/bitstream.go:24-29 | peeking k bits gives the int16 value of the next k stream bits |
| `BitReading.BitReader.SkipKbits` | internal/ikvm/bitstream.go:32-48 | for 0 to 31 bits, the registers become those of the later position; past the end the last word repeats |
| `BitReading.BitReader.UpdateReadBuf` | internal/ikvm/bitstream.go:62-77 | the 64-bit variant is the same state transformer |
| `BitReading.BitReader.GetKbits` | internal/ikvm/bitstream.go:51-58 | reads k bits as EXTEND of section F.2.2.1 of ITU-T T.81 |
| `BitReading.RefillWindow` | internal/ikvm/bitstream.go:34-42 | a refill step moves the register window over the word boundary |
| `BitReading.ShiftWindow` | internal/ikvm/bitstream.go:43-47 | a shift step moves the register window within a word |
| `BitReading.InitNegPow2` | internal/ikvm/decoder.go:442-446 | the table holds 1 - 2^i as int16 |
| `Tables.ScanOrdersInvert` | internal/ikvm/tables.go:8-29 | zigzag and inverse zigzag are inverse permutations |
| `Tables.DezigzagWalks` | internal/ikvm/tables.go:20-29 | each step of the scan goes along a diagonal of the block, up and right on even ones, down and left on odd ones, turning at the edges |
| `Tables.DezigzagIsScan` | internal/ikvm/tables.go:20-29 | so the table is the scan of T.81, cell by cell |
| `Huffman.CodesAreConsecutive` | internal/ikvm/decoder.go:519-531 | the codes generated by Annex C of ITU-T T.81 are, per length, consecutive from the table's first code |
| `Huffman.SweepLengths` | internal/ikvm/decoder.go:534-545 | for any strictly increasing thresholds ending at 65535, the single sweep gives every index the length of its interval |
| `Huffman.IntervalAt` | internal/ikvm/decoder.go:534-545 | the length of an index is the length of the interval that contains it |
| `Huffman.LoadSymbols` | internal/ikvm/decoder.go:508-517 | the symbol of the j-th code of length l is stored at 256 l + j |
| `Huffman.LoadMinCodes` | internal/ikvm/decoder.go:519-531 | the first code of each length, as int16, or -1 when there is none |
| `Huffman.LoadHuffmanTable` | internal/ikvm/decoder.go:503-546 | the three parts together |
| `Huffman.DcLumaCertified` | internal/ikvm/tables.go:32-96 | the thresholds of this table fit its code counts: every interval lies in the range of its length |
| `Huffman.DcChromaCertified` | internal/ikvm/tables.go:36-102 | the same for the DC chrominance table |
| `Huffman.AcLumaCertified` | internal/ikvm/tables.go:40-112 | the same for the AC luminance table |
| `Huffman.AcChromaCertified` | internal/ikvm/tables.go:66-123 | the same for the AC chrominance table |
| `Huffman.RangeHasLength` | internal/ikvm/tables.go:93-123 | every 16-bit window in the range of a code length gets that length |
| `Huffman.WrappedOffset` | internal/ikvm/decompress.go:126 | truncation to a byte undoes the int16 wrap-around of 16-bit codes |
| `Huffman.DecodesCode` | internal/ikvm/decompress.go:118-127 | a window that starts with a codeword yields that codeword's symbol and length, whatever follows |
| `Huffman.AllOnes` | internal/ikvm/decompress.go:118-127 | a window of sixteen ones, which begins no codeword, counts as one bit with symbol zero |
| `Entropy.ReadSymbol` | internal/ikvm/decompress.go:142-150 | look-up, peek and skip on the registers is one table step on the stream |
| `Entropy.DcRoundTrip` | internal/ikvm/decompress.go:117-136 | the DC step inverts the reference DC encoder |
| `Entropy.AcRoundTrip` | internal/ikvm/decompress.go:139-167 | the AC loop inverts run/size, ZRL and EOB coding from any index on |
| `Entropy.UnitRoundTrip` | internal/ikvm/decompress.go:110-168 | for every codable block, decoding its T.81 encoding, scanned along the diagonals, returns exactly its coefficients and predictor and consumes exactly its bits, whatever follows |
| `Entropy.PredictorWraps` | internal/ikvm/decompress.go:129-136 | on any stream the difference has at most 11 bits, the coefficient is the plain sum and the next predictor the sum modulo 2^16 |
| `Entropy.AcKeepsDc` | internal/ikvm/decompress.go:139-167 | on any stream the AC loop leaves the DC coefficient alone |
| `Entropy.AcStops` | internal/ikvm/decompress.go:155-166 | the loop stops at a symbol of size zero other than a run of 15, and at a run that leaves the block without reading its coefficient |
| `Entropy.DecodeHuffmanDataUnit` | internal/ikvm/decompress.go:110-168 | the in-place loops compute the stream function and leave the other blocks' coefficients alone |
| `Entropy.DecodeDcValue` | internal/ikvm/decompress.go:117-136 | the DC part in place, with the int16 predictor |
| `Entropy.DecodeAcValues` | internal/ikvm/decompress.go:139-167 | the AC loop in place |
| `Idct.ButterflyIsFixedMatrix` | internal/ikvm/decompress.go:250-273 | up to the rounding of its multiplications, the butterfly is the matrix its constants encode |
| `Idct.ButterflyApproximatesIdct` | internal/ikvm/decompress.go:201-238 | every output is within 3 + 34/65536 of the input's 1-norm of the product with the rounded AAN matrix `CosineRow` |
| `Idct.ShortcutIsButterfly` | internal/ikvm/decompress.go:183-194 | the zero-column shortcut equals the general butterfly |
| `Idct.DequantizeExact` | internal/ikvm/decompress.go:186 | dequantising by 65536 v multiplies by v exactly, for negative values too |
| `Idct.InitRangeLimitTable` | internal/ikvm/decoder.go:449-470 | the contents of all 1408 entries |
| `Idct.LimitIsClampExactly` | internal/ikvm/decompress.go:275-290 | the masked lookup is the clamp exactly on -512 to 510 and on the listed residues outside; 511 is wrong |
| `Idct.SamplesInRange` | internal/ikvm/decompress.go:245-293 | every sample of every block is in 0 to 255 |
| `Idct.DcOnlyIsConstant` | internal/ikvm/decompress.go:176-294 | a block with only a DC coefficient decodes to one constant |
| `Idct.BlankIsNeutral` | internal/ikvm/decompress.go:298-300 | an all-zero block decodes to 128 everywhere |
| `Idct.Column` | internal/ikvm/decompress.go:182-239 | one column, by shortcut or butterfly, is the butterfly of the dequantised column |
| `Idct.RowPass` | internal/ikvm/decompress.go:247-293 | one row writes the limited butterfly of the workspace row |
| `Idct.InverseDct` | internal/ikvm/decompress.go:176-294 | the in-place transform writes exactly the block's 64 samples and nothing else |
| `Transform.BlockTransforms` | internal/ikvm/decompress.go:176-294 | for every block and tables of whole entries, the sample at row r, column k is the limited value of a sum within an explicit bound of the double sum of matrix entries times coefficients by position, and the clamp of it where the table allows |
| `Transform.SampleNear` | internal/ikvm/decompress.go:176-294 | in samples: within the bound and one of the clamped, shifted double sum |
| `Colour.InitTables` | internal/ikvm/decoder.go:474-492 | every table entry is the rounded fixed-point product |
| `Colour.ConvertSample` | internal/ikvm/decompress.go:397-416 | the table lookups compute the clamped integer conversion of the clamped sample |
| `Colour.ReferenceMatters` | internal/ikvm/decompress.go:530-554 | for every difference some reference shows another colour than the neutral reference does |
| `Colour.CoefficientsRounded` | internal/ikvm/decoder.go:475-491 | the tables hold the decimal coefficients of the conversion, rounded to the nearest integer |
| `Colour.DifferenceAdds` | internal/ikvm/decompress.go:530-534 | a neutral difference shows the reference, any other adds to each of its channels |
| `Drawing.PaintAllAt` | internal/ikvm/decompress.go:359-418 | in 4:4:4, what a list of tiles does to a pixel and its reference depends on that cell and the tiles alone |
| `Drawing.CellsDetermineCanvas` | internal/ikvm/decompress.go:359-418 | cells that agree everywhere make equal buffers, byte for byte |
| `Painting.IsNeutralBlock` | internal/ikvm/decompress.go:301-314 | true exactly when all inspected samples are 128 |
| `Painting.UpdatePreviousYUV` | internal/ikvm/decompress.go:319-345 | stores the tile in the reference buffer, clipped, and nothing else |
| `Painting.ConvertNarrow` | internal/ikvm/decompress.go:359-418 | draws and remembers a clipped 8x8 tile |
| `Painting.ConvertWide` | internal/ikvm/decompress.go:419-491 | draws a clipped 16x16 tile with shared chroma, including the half-height last row |
| `Painting.ConvertPass2` | internal/ikvm/decompress.go:494-557 | draws a difference to the reference without writing the reference |
| `Picture.PixelHistory420` | internal/ikvm/decompress.go:419-491 | when the mode is not 4:4:4, after any tiles a pixel has the colour of its luma and shared chroma in the last non-grey first-pass tile at its place, said by position in the tile and with the half-height row; otherwise it keeps its colour, and references never change |
| `Picture.PixelHistory444` | internal/ikvm/decompress.go:359-624 | in 4:4:4, after any tiles of both passes a pixel has the colour that the last non-grey tile at its place shows, a difference adding to the reference left by the tiles before it |
| `Picture.ReferenceHistory444` | internal/ikvm/decompress.go:597-624 | and the reference is the sample of the last first-pass or grey tile at its place |
| `Picture.FirstPass444` | internal/ikvm/decompress.go:359-418 | first-pass tiles in 4:4:4 draw the same whatever the size of the source |
| `Picture.PaintDifference` | internal/ikvm/decompress.go:494-557 | for any source size, a difference tile shows its samples added to the references at its place in the source |
| `Picture.ReferenceSet` | internal/ikvm/decompress.go:319-395 | for any source at least 8 pixels wide, a tile stores its samples at its pixels' places in the source |
| `Picture.ReferenceKept` | internal/ikvm/decompress.go:319-395 | and leaves every other place alone |
| `History.PixelHistory` | internal/ikvm/decompress.go:597-602 | over first-pass tiles a pixel has the colour of the last non-neutral tile covering it and its reference is the last covering tile's sample; nothing else changes |
| `History.SummaryActs` | internal/ikvm/decompress.go:597-624 | the effect of any tiles on a cell is a summary computed from the tiles alone |
| `History.NoDriftExactly` | internal/ikvm/decoder_drift_test.go:8-11 | drawing the same tiles twice changes nothing from every picture, if and only if no cell shows a difference to a reference that the same tiles replace |
| `History.DriftFreeFrames` | internal/ikvm/decompress.go:605-624 | frames without difference tiles, or visiting no tile twice, never drift |
| `History.DriftExample` | internal/ikvm/decompress.go:619-622 | any difference tile in the picture followed by a neutral tile at its place drifts |
| `Undo.SaveBlock` | internal/ikvm/decoder.go:288-304 | saves the 64 pixels at the block's offset, zeros outside the buffer |
| `Undo.RestoreBlocks` | internal/ikvm/decoder.go:306-322 | writes all saved blocks back, first to last |
| `Undo.RestoredValue` | internal/ikvm/decoder.go:306-322 | afterwards each pixel holds what the last entry covering it saved, for any mode and width |
| `Undo.TouchesExactly` | internal/ikvm/decoder.go:288-304 | the saved block of a tile holds the 8x8 pixels at eight times its position, counted through the picture, in every mode |
| `Undo.RollbackExactly` | internal/ikvm/decoder.go:279-281 | the rollback restores every earlier picture byte for byte, if and only if no pixel was already written when the last block holding it was saved |
| `Undo.OnceRollsBack` | internal/ikvm/decoder.go:279-337 | which holds when the width is a multiple of 8, tiles are in the picture and none is visited twice |
| `Undo.RollbackFails` | internal/ikvm/decoder.go:306-322 | and fails for every tile drawn in the picture twice in a row |
| `Raster.MovesAreRasterOrder` | internal/ikvm/decompress.go:676-711 | n moves from the first tile reach tile n modulo the number of tiles in raster order |
| `Raster.EveryTileOnce` | internal/ikvm/decompress.go:676-711 | one full cycle visits every tile exactly once |
| `Raster.TilesPartition` | internal/ikvm/decoder.go:212-229 | the clipped tiles partition the picture |
| `Placement.FrameExactly` | internal/ikvm/decoder.go:168-210 | a source without size has the picture's, and its height is padded to the least multiple of 16 or 8 |
| `Placement.GridExactly` | internal/ikvm/decoder.go:212-229 | the grid has the tiles that the picture needs, of 8 pixels in 4:4:4 and of 16 in 4:2:0 |
| `Placement.UnplacedOrder` | internal/ikvm/decompress.go:676-711 | blocks without a position decode to tiles row by row through that grid, over and over |
| `Placement.PictureCoveredOnce` | internal/ikvm/decompress.go:676-711 | the first of them, as many as the grid has tiles, cover every pixel of the picture exactly once |
| `FrameLaws.EnoughFuel` | internal/ikvm/decoder.go:325-436 | with no more announced words than words, the loop ends within 8 blocks per word |
| `FrameLaws.FuelIrrelevant` | internal/ikvm/decoder.go:325-436 | a run that ends is the same under every larger bound |
| `FrameLaws.TerminationExactly` | internal/ikvm/bitstream.go:35-39 | the loop ends on every buffer of n words if and only if at most n words are announced |
| `FrameLaws.TilesFromDataAlone` | internal/ikvm/decoder.go:231-275 | in 4:4:4 the decoded tiles do not depend on earlier frames |
| `FrameLaws.DecodedTilesAreBytes` | internal/ikvm/decompress.go:561-672 | every sample of every decoded 4:4:4 tile is in 0 to 255 |
| `FrameCoding.UnitsRoundTrip` | internal/ikvm/decompress.go:570-591 | the three or six data units of a JPEG block decode to their planes and predictors |
| `FrameCoding.PicksRead` | internal/ikvm/decompress.go:628-639 | reading a VQ header gives the chosen indices and the updated colour cache |
| `FrameCoding.BitmapReads` | internal/ikvm/decompress.go:641-666 | reading a VQ bitmap gives every pixel its chosen colour |
| `FrameCoding.BlockRoundTrip` | internal/ikvm/decoder.go:328-427 | every encoded block, with or without position, of all JPEG and VQ types and in every chroma mode, decodes to its tile and place and consumes its bits |
| `FrameCoding.FrameRoundTrip` | internal/ikvm/decoder.go:325-436 | on the encoding of any list of blocks, closed by the end marker or by an advance block, the loop yields exactly the tiles of the blocks it begins, in order, and then that outcome |
| `FrameCoding.BegunExactly` | internal/ikvm/decoder.go:267-325 | block i is begun if and only if it starts before the last two announced words, or more words are announced than there are |
| `Transmission.PackedBits` | internal/ikvm/bitstream.go:8-21 | bits packed into little-endian words read back as the beginning of the stream |
| `Transmission.EncodedFrameDraws` | internal/ikvm/decoder.go:148-439 | any codable blocks, encoded and packed under any announced size, decode without error to the earlier picture with the tiles of the blocks reached drawn on it, in every chroma mode |
| `Transmission.EncodedFrameComplete` | internal/ikvm/decoder.go:148-439 | with every packed word announced, all tiles are drawn |
| `Transmission.EncodedAbortExactly` | internal/ikvm/decoder.go:335-337 | an encoded frame that ends in an advance block fails with its code, and leaves the picture as it was from every state of its size if and only if its tiles can be rolled back |
| `Transmission.EncodedTwiceExactly` | internal/ikvm/decoder_drift_test.go:8-11 | a complete encoded frame can be decoded twice without change from every state, if and only if its tiles are drift-free |
| `Failures.AbortChangesPicture` | internal/ikvm/decoder.go:306-337 | for every advance code and all quantisation tables there are bytes on which decoding fails with that code and changes the picture |
| `Failures.CompleteFrameDrifts` | internal/ikvm/decompress.go:619-622 | for all quantisation tables with DC entries in 1 to 255 there are bytes that decode without error and, decoded again, change picture or references |
| `Failures.LosesLastBlock` | internal/ikvm/decoder.go:277-325 | under all quantisation tables, three blocks in three announced words: the last is not drawn |
| `Failures.OverflowLevel` | internal/ikvm/decompress.go:275-290 | under every DC entry from 2 to 255 there is a codable coefficient whose samples are 0 where the clamp gives 255 |
| `Failures.WhiteTurnsBlack` | internal/ikvm/decoder.go:458-465 | for all such tables there are bytes that decode without error, from every state, to black where a true clamp gives white |
| `Decoding.DecodeFinishes` | internal/ikvm/decoder.go:277-325 | with enough data every frame of every mode and size finishes, and the bound on blocks does not matter |
| `Decoding.DecodeDrawsTiles` | internal/ikvm/decoder.go:148-439 | decoding draws the tiles of header and data on the prepared picture, rolled back after an advance block |
| `Decoding.DecodeTwiceExactly` | internal/ikvm/decoder_drift_test.go:8-11 | decoding a complete frame twice leaves picture and references as after the first time from every state, if and only if its tiles are drift-free |
| `Decoding.DecodeTwice` | internal/ikvm/decoder_drift_test.go:8-11 | in particular without difference tiles, or when no tile is visited twice |
| `Decoding.AbortRestoresExactly` | internal/ikvm/decoder.go:335-337 | an aborted frame leaves the picture as it was from every state of that size, if and only if its tiles can be rolled back |
| `Decoding.AbortRestores` | internal/ikvm/decoder.go:335-337 | in particular when no tile is visited twice |
| `Decoding.RefusedChangesExactly` | internal/ikvm/decoder.go:164-259 | a frame refused before its blocks are read changes the state exactly when its data is too short and its size is new |
| `Decoding.RefusedExactly` | internal/ikvm/decoder.go:164-259 | a frame is refused exactly without a size or with at most eight bytes of data |
| `Decoding.MovieDrawsTiles` | internal/ikvm/decoder.go:148-439 | decoding complete frames one after the other draws all their tiles on the picture they start from |
| `Decoding.MovieHistory` | internal/ikvm/decompress.go:597-602 | over any number of frames a pixel has the colour of the last non-neutral tile of any of them that covers it, or its old colour |
| `Decoding.MovieFits` | internal/ikvm/decoder.go:180-186 | the first frame of a new size starts from a black picture, and the others go on from there |
| `AspeedDecoder.InitHuffmanTables` | internal/ikvm/decoder.go:495-500 | the four tables are loaded and usable |
| `AspeedDecoder.Decoder.constructor` | internal/ikvm/decoder.go:136-143 | a new decoder has valid tables and an empty picture |
| `AspeedDecoder.Decoder.DecodeUnitInto` | internal/ikvm/decompress.go:570-571 | one data unit is decoded and transformed into the tile buffer |
| `AspeedDecoder.Decoder.ReadThree` | internal/ikvm/decompress.go:605-618 | the three data units of a 4:4:4 or difference block |
| `AspeedDecoder.Decoder.ReadSix` | internal/ikvm/decompress.go:570-584 | the six data units of a 4:2:0 block |
| `AspeedDecoder.Decoder.ReadVqHeader` | internal/ikvm/decompress.go:628-639 | the colour selections and cache updates of a VQ block |
| `AspeedDecoder.Decoder.ReadVqTile` | internal/ikvm/decompress.go:641-666 | the tile of a VQ block |
| `AspeedDecoder.Decoder.ShowTile` | internal/ikvm/decompress.go:593-624 | neutral tiles are only remembered, others drawn |
| `AspeedDecoder.Decoder.MoveBlockIndex` | internal/ikvm/decompress.go:676-711 | the next tile in raster order |
| `AspeedDecoder.Decoder.ReadBlock` | internal/ikvm/decoder.go:339-344 | the block's 8x8 pixels are saved at its final position before anything is drawn, and the tile is that of the block function |
| `AspeedDecoder.Decoder.OneBlock` | internal/ikvm/decoder.go:329-427 | one iteration saves, reads, draws and moves as the block function says |
| `AspeedDecoder.Decoder.DecodeBlocks` | internal/ikvm/decoder.go:325-436 | the loop leaves the picture and references of the block list, restored after an advance block |
| `AspeedDecoder.Decoder.SetGeometry` | internal/ikvm/decoder.go:188-229 | padded sizes and tile grid |
| `AspeedDecoder.Decoder.Resize` | internal/ikvm/decoder.go:180-186 | a new size starts from a black picture and zero references |
| `AspeedDecoder.Decoder.Decode` | internal/ikvm/decoder.go:148-439 | for every header and byte string, in all chroma modes, all indices are in range and the new state and result are those of the decode function |
| `AspeedDecoder.Decoder.DecodeFrame` | internal/ikvm/decoder.go:148-439 | without a bound on blocks: with enough data a frame always finishes, in the state every larger bound gives |
| `Vnc.BuildServerInit` | internal/ikvm/vnc.go:55-77 | the message bytes |
| `Vnc.InitAdvertises` | internal/ikvm/vnc.go:55-77 | a client reads the size, 32-bit little-endian pixel format and name from it (sections 7.3.2 and 7.4 of RFC 6143) |
| `Vnc.SwapChannels` | internal/ikvm/vnc.go:238-247 | the loop exchanges blue and red of every pixel |
| `Vnc.UpdateReads` | internal/ikvm/vnc.go:269-281 | a client reads one raw rectangle at its position whose length fits (sections 7.6.1 and 7.7.1 of RFC 6143) |
| `Vnc.ClientSeesPixel` | internal/ikvm/vnc.go:238-281 | for every picture, a client that follows the advertised format recovers each pixel's red, green and blue |
| `VideoBridge.Bridge.constructor` | internal/ikvm/bridge.go:131-145 | a new bridge has a new decoder and assumes 800x600 |
| `VideoBridge.Bridge.OnVideoFrame` | internal/ikvm/bridge.go:347-391 | one frame: decoding, the size check with its countdown and refresh requests, and the blanking, as a function of the old state |
| `VideoBridge.DeliverExactly` | internal/ikvm/bridge.go:364-391 | from any state, complete frames of one size leave a black picture while the countdown runs, and afterwards the picture that the later frames draw on the cleared one |
| `VideoBridge.FailureKeeps` | internal/ikvm/bridge.go:355-362 | a frame that does not decode is counted and answered with a refresh request, and changes nothing else of the bridge |
| `Display.ReceivedBytes` | internal/ikvm/protocol.go:190-245 | the decoder's header fields by their byte offsets in the delivered frame |
| `Display.ViewersSeeBlack` | internal/ikvm/bridge.go:378-391 | while the bridge blanks frames a viewer reads black everywhere |
| `Display.ViewersSeeFrames` | internal/ikvm/bridge.go:347-391 | after any number of delivered complete 4:4:4 frames of one size, more than the bridge blanks, a viewer reads at every pixel the clamped integer conversion of the sample of the last non-neutral tile covering it in the frames after the blanked ones, or else what the ground has there, which is black if frames were blanked |
| `Ivtp.HeaderExactly` | internal/ikvm/protocol.go:128-145 | decoding a header succeeds exactly on what encoding produces, whatever follows |
| `Ivtp.HeaderBytes` | internal/ikvm/protocol.go:128-134 | the eight bytes of a header, least significant first |
| `Ivtp.ReadExactly` | internal/ikvm/client.go:348-371 | reading yields a message and a rest if and only if the input is that message's encoding followed by the rest and the payload is at most 10 MiB |
| `Ivtp.ReadFailsExactly` | internal/ikvm/client.go:348-371 | reading fails exactly on input that starts with no acceptable message |
| `Ivtp.FailureExactly` | internal/ikvm/client.go:348-371 | which failure it is, by the bytes, and what each leaves unread |
| `Ivtp.PayloadLimit` | internal/ikvm/client.go:361 | payloads of up to 10485760 bytes are accepted |
| `Ivtp.StreamExactly` | internal/ikvm/client.go:348-371 | a stream reads as given messages and tail if and only if it is their encoding followed by the tail and no message starts there |
| `Ivtp.WireUnique` | internal/ikvm/client.go:383-400 | an encoded stream can be taken apart in one way only |
| `Ivtp.TunnelExactly` | internal/ikvm/client.go:146-169 | the response is the text through the first blank line that ends within 4096 bytes; otherwise all of a shorter input, or 4096 bytes of a longer one |
| `Ivtp.BlankLineBytes` | internal/ikvm/client.go:151-166 | what ends the response, byte by byte, and the limit of 4096 |
| `VideoHeaders.LayoutSize` | internal/ikvm/protocol.go:123-188 | the field widths add up to 86 |
| `VideoHeaders.VideoHeaderExactly` | internal/ikvm/protocol.go:190-245 | decoding a video header succeeds exactly on at least 86 bytes and inverts encoding, field by field |
| `VideoHeaders.SizesBound` | internal/ikvm/protocol.go:155-209 | picture sizes are 16-bit numbers |
| `IvtpClient.FrameExactly` | internal/ikvm/client.go:322-345 | a frame cut into numbered fragments is delivered once and unchanged, whatever the buffer held, if and only if no repetition of number zero follows data, or it is shorter than 86 bytes |
| `IvtpClient.FewFragmentsAreWhole` | internal/ikvm/client.go:326-334 | which holds for up to 32768 fragments |
| `IvtpClient.TooManyFragments` | internal/ikvm/client.go:326-334 | and fails for 32769 fragments of one byte |
| `IvtpClient.FramesDelivered` | internal/ikvm/client.go:322-345 | a series of frames is delivered in order, each once |
| `IvtpClient.ShownIsFrame` | internal/ikvm/client.go:337-343 | what is delivered is the frame: its header encodes to the first 86 bytes and its data is the rest |
| `IvtpClient.HandleAllSeparates` | internal/ikvm/client.go:237-314 | interleaving does not matter: the video depends on the fragments alone, replies and control messages keep their order |
| `IvtpClient.LoopConsumes` | internal/ikvm/client.go:221-316 | the loop handles every message of a stream that does not end it, then goes on with what follows |
| `IvtpClient.RunsHandle` | internal/ikvm/client.go:221-316 | every run is of that form and ends at the first read that fails or message that stops it |
| `IvtpClient.PanicsExactly` | internal/ikvm/client.go:241-245 | the loop panics if and only if, after messages that do not end it, it reads a validation response without payload |
| `IvtpClient.EmptyResponsePanics` | internal/ikvm/client.go:241-245 | it does so on those eight bytes, whatever follows and whatever harmless messages came before |
| `IvtpClient.ZeroIsInvalid` | internal/ikvm/client.go:241-244 | a validation response starting with zero ends the session as invalid |
| `IvtpClient.NonZeroIsValid` | internal/ikvm/client.go:245-253 | any other first byte lets it go on after sending the three requests, byte by byte |
| `IvtpClient.OtherEnds` | internal/ikvm/client.go:258-297 | types 8 and 22 end the session, and type 39 is answered with a full screen request |
| `IvtpClient.KindsHandled` | internal/ikvm/client.go:237-314 | type 25 is video, and which types go to the control callback |
| `IvtpClient.CredentialsAt` | internal/ikvm/client.go:193-201 | the 324 credential bytes by position |
| `IvtpClient.GreetingBytes` | internal/ikvm/client.go:173-213 | an accepted session sends cookie, credentials and resume request in this order, any other first message ends it |
| `IvtpClient.StreamToFrames` | internal/ikvm/client.go:129-217 | a tunnel response, an acceptance, and fragments mixed with other messages yield that response, every frame of at least 86 bytes once, every control message and every reply, with no byte lost |
| `IvtpClient.Client.ReadTunnelResponse` | internal/ikvm/client.go:146-169 | the byte loop with its shifting window computes the scan and consumes exactly the returned text |
| `IvtpClient.Client.TakeMessage` | internal/ikvm/client.go:348-371 | reads one message; a read that runs out consumes everything |
| `IvtpClient.Client.HandleVideoFragment` | internal/ikvm/client.go:322-345 | one fragment's effect on frame buffer and callback |
| `IvtpClient.Client.SendHeader` | internal/ikvm/client.go:374-380 | writes the encoded header |
| `IvtpClient.Client.SendMessageWithPayload` | internal/ikvm/client.go:383-400 | writes exactly the encoding of the message |
| `IvtpClient.Client.Dispatch` | internal/ikvm/client.go:237-314 | the reaction to each message type: replies, delivery, or the end of the session |
| `IvtpClient.Client.ReadLoop` | internal/ikvm/client.go:221-316 | the loop computes the session function |
| `IvtpClient.Client.Run` | internal/ikvm/client.go:173-218 | waits for acceptance, sends token, validation and resume, then loops |
| `Viewers.ViewerRegistry.AddViewer` | internal/api/viewers.go:37-57 | whole new registry state |
| `Viewers.ViewerRegistry.RemoveViewer` | internal/api/viewers.go:61-82 | the first occurrence leaves the order; control passes on |
| `Viewers.ViewerRegistry.ListViewers` | internal/api/viewers.go:85-105 | connected viewers in order with the controller marked |
| `Viewers.ViewerRegistry.RequestControl` | internal/api/viewers.go:110-147 | refused exactly for strangers and the controller; otherwise pending, with a new timer |
| `Viewers.ViewerRegistry.TimerFired` | internal/api/viewers.go:135-144 | the timer closure |
| `Viewers.ViewerRegistry.AcceptControlRequest` | internal/api/viewers.go:150-168 | grants exactly a pending request of a connected viewer |
| `Viewers.ViewerRegistry.DenyControlRequest` | internal/api/viewers.go:171-180 | nothing is pending afterwards |
| `Viewers.ViewerRegistry.ReleaseControl` | internal/api/viewers.go:195-211 | control passes to the first other viewer |
| `Viewers.AlwaysSound` | internal/api/viewers.go:37-211 | in every run with any ids, connected viewers and the controller are in the order |
| `Viewers.AlwaysControlled` | internal/api/viewers.go:37-211 | in every run with fresh, non-empty ids the order is exactly the viewers present in join order, they are the keys of the map, and the controller is one of them, or nobody with at most one present |
| `Viewers.ControlledExactly` | internal/api/viewers.go:37-211 | the invariant holds at every moment of a run if and only if every viewer joins under a non-empty id that is not present |
| `Viewers.RepeatedIdLosesControl` | internal/api/viewers.go:37-82 | from every state whose order holds an id twice, some continuation ends with that id in control and not connected |
| `Viewers.ListMarksOne` | internal/api/viewers.go:84-105 | the list marks exactly the controller |
| `Viewers.RepeatedIdBreaksControl` | internal/api/viewers.go:48-81 | a repeated id leaves a controller who is not connected |
| `Viewers.EmptyIdBreaksControl` | internal/api/viewers.go:52-54 | in the registry alone, an empty id can hold control and reads as nobody |
| `Viewers.TimerActsExactly` | internal/api/viewers.go:135-144 | a timer acts exactly when its viewer owns the pending request, and gives control only to that viewer if still connected |
| `Viewers.TimersInertWithoutRequest` | internal/api/viewers.go:135-180 | once nothing is pending, a run without requests looks the same with its timer firings removed |
| `Viewers.AnsweredStaysAnswered` | internal/api/viewers.go:135-180 | after a denial, an acceptance or an expiry, every run up to the next request looks the same without its timer firings |
| `Viewers.StaleTimersAreInert` | internal/api/viewers.go:122-144 | if nobody asks while an own timer is outstanding, only a request's own timer ever decides it |
| `Viewers.RequestSafeExactly` | internal/api/viewers.go:122-144 | a request is safe from stale timers if and only if its viewer has none outstanding |
| `Viewers.StaleTimerGrants` | internal/api/viewers.go:122-144 | after a denial and a second request, the first timer grants control |
| `ViewerHistory.ConnectedExactly` | internal/api/viewers.go:37-66 | a viewer is registered exactly if it joined and did not leave since |
| `ViewerHistory.TimersExactly` | internal/api/viewers.go:135-144 | the outstanding timers are those of effective requests that have not run |
| `ViewerHistory.PendingExactly` | internal/api/viewers.go:110-180 | the pending request is the last effective one not yet accepted, denied or expired |
| `ViewerHistory.AcceptGives` | internal/api/viewers.go:150-168 | accepting gives control to the viewer whose request is open, if still connected, and to nobody else |
| `ViewerHistory.ExpiryGives` | internal/api/viewers.go:135-144 | so does a timer whose owner's request is open |
| `ViewerHistory.OthersKeep` | internal/api/viewers.go:37-180 | requests and denials give control to nobody, and joining gives it only when nobody has it |
| `ViewerHistory.ReleaseGives` | internal/api/viewers.go:195-211 | a release by the controller passes control to the first other viewer present in join order |
| `ViewerHistory.LeaveGives` | internal/api/viewers.go:75-81 | a controller who leaves passes it to the first viewer who stays |
| `ViewerHistory.ListExactly` | internal/api/viewers.go:84-105 | the list shows exactly the viewers present, in join order and as they joined, and marks the controller |
| `CircuitBreaker.Breaker.CurrentState` | internal/circuitbreaker/breaker.go:40-48 | the lazy transition to half-open |
| `CircuitBreaker.Breaker.Allow` | internal/circuitbreaker/breaker.go:52-55 | allows unless open, after the same transition |
| `CircuitBreaker.Breaker.RecordSuccess` | internal/circuitbreaker/breaker.go:58-64 | closed with no failures |
| `CircuitBreaker.Breaker.RecordFailure` | internal/circuitbreaker/breaker.go:67-77 | one more failure at this time, open from the threshold on |
| `CircuitBreaker.StoredState` | internal/circuitbreaker/breaker.go:40-77 | stored counts and phase in terms of any history |
| `CircuitBreaker.StateRefinesHistory` | internal/circuitbreaker/breaker.go:40-77 | after any calls under a clock that does not go back, the state depends only on the failures since the last success and the time of the last failure |
| `CircuitBreaker.FailureReopens` | internal/circuitbreaker/breaker.go:67-77 | one failure while half-open opens the breaker again |
| `FrameNotification.AlwaysInvariant` | internal/ikvm/bridge.go:246-263 | the invariant holds in every state of every run |
| `FrameNotification.NoLostWakeup` | internal/ikvm/bridge.go:393-407 | when no frame is being delivered, a subscribed client whose copy is older than the last announced picture has a token, is on its way to copy, or has returned |
| `FrameNotification.NoSendOnClosed` | internal/ikvm/bridge.go:258-263 | no step sends on a closed channel and no channel is closed twice |
| `FrameNotification.CatchesUp` | internal/ikvm/vnc.go:186-264 | from any such state the client copies what is announced in at most three steps of its own, and sends it if its sender knows the size |
| `FrameNotification.SenderNeverWaitsAgain` | internal/ikvm/vnc.go:198-216 | once its channel is closed a sender never blocks on it again until it returns |
| `FrameNotification.SenderOutlivesClient` | internal/ikvm/bridge.go:278-344 | a run that reaches such a state |
| `FrameNotification.UnannouncedExactly` | internal/ikvm/bridge.go:355-362 | the picture is newer than every notification exactly when a failed frame has changed it since the last one that decoded |
| `FrameNotification.BehindOnlyAfterFailure` | internal/ikvm/bridge.go:355-407 | only then can a running client have copied an older picture with nothing to wake it |
| `FrameNotification.BehindExactly` | internal/ikvm/vnc.go:228-264 | a viewer has not been sent the current picture and nothing will wake its sender, exactly when a failed frame changed the picture since the last copy, or that copy was spent on a resize message |
| `FrameNotification.FailureLeavesBehind` | internal/ikvm/bridge.go:355-362 | a run with the first |
| `FrameNotification.ResizeLeavesBehind` | internal/ikvm/vnc.go:250-258 | and a run with the second |

## Left out

- The AAN scaling of the quantisation tables in `buildQT` and the choice of table by quality and mapping: the four scaled tables are part of the decoder's frame header, an arbitrary function of the three selecting fields of the video header.
- AspeedDecoder.Decoder.Decode: takes a bound on the number of blocks, because the loop need not end; `AspeedDecoder.Decoder.DecodeFrame` does without it whenever the data is as long as announced, and the drift and rollback laws hold for every bound.
- AspeedDecoder.Decoder.DecodeFrame: asks for data as long as announced; on shorter data the loop may run for ever, which only the bounded form can describe.
- AspeedDecoder.Decoder.DecodeBlocks: takes the same bound as Decode.
- Idct.ButterflyApproximatesIdct: bounds the error of one pass against a matrix rounded to 1/65536, not of both passes with the final clamp against real cosines, which the program does not promise.
- Undo.RollbackExactly: is about 4:4:4; in 4:2:0 the program saves 8x8 pixels of each 16x16 tile and promises no rollback.
- Picture.ReferenceSet: is about sources at least 8 pixels wide; in narrower ones the pixels of one tile share places, and the last one written stays.
- History.NoDriftExactly: is about 4:4:4 pictures whose source has the destination's size; other frames are modelled by the decoder and its functions without these laws.
- Machine words are bit sequences and Go's 64-bit integers are unbounded; int16, byte and uint32 wrap-around are explicit.
- The scratch copies of the 4:2:0 planes and the unused `majorCode` table. Loops over a tile's pixels run to the end and skip pixels outside the picture, where the code leaves the loop.
- Video header decoding reads the fields recursively from the remaining bytes instead of advancing an offset variable; the reserved bytes are one little-endian field.
- The text of the tunnel request, the check of its response for "ERROR", the stop channel polled by the read loop, and write errors.
- FrameNotification.NoLostWakeup: is about a state machine over the locks and channels of the bridge, with the coalescing delay as an arbitrary pause and picture sizes as numbers.
- Viewer connection times, request time stamps and timeout lengths: a timer may fire at any moment.
- The bridge's legacy notification channel, its readiness signal and the refresh requests themselves, of which only the number is kept.
- VNC input, HID reports, key symbols, desktop-size messages and PNG screenshots: constant layouts.
- HTTP handlers, authentication, board drivers, session lifecycle, storage, the service worker and the front end: input and output around this path.
