# Verified model of the JPEG entropy coders and their control logic

This project models the compression side of the JPEG library in `jpeg/` from the coefficient blocks outwards, together
with the decoding procedures that must invert it: the adaptive arithmetic coder, the Huffman coder with its optimal
tables, sequential and progressive scans with restart intervals, the scan script and pass control, the coefficient
controllers that feed the coders, and the row buffers in front of them. Section and figure numbers in the Dafny files
are those of ITU-T T.81 (ISO/IEC 10918-1).

How the parts fit together:

- **Arithmetic coding.** `IntervalCoder` is the coder of sections D.1 and D.2 over unbounded integers. The register
  machines `ArithmeticEncoder.Encoder` (lazy carries over stacked 0xFF bytes and pending zeros) and
  `ArithmeticDecoder.DecoderObject` (floating cut point) refine it. `Magnitude`, `BlockCoding`, `BlockRefinement` and
  `McuCoding` turn coefficients into binary decisions and back over any decoding step; `DecisionTables`, `Levels` and
  `Predictions` spell these decisions out in the numbers of the standard, and `Adaptation` what coding them teaches;
  `ArithmeticBlockEncoder` and `ArithmeticBlockDecoder` are the loops; `ScanCoding`, `ArithmeticScanEncoder` and
  `ArithmeticScanDecoder` add restart intervals.
- **Huffman tables.** `HuffmanTree`, `HuffmanDepth` and `KraftInequality` prove Huffman's procedure optimal against
  every prefix code; `CodeLengths`, `OptimalTable` and `ShortenedCodes` add the 16-bit limit; `TableBuilder` is the
  in-place procedure with linked branches; `CanonicalCode` and `DerivedTables` give encoder and decoder their tables.
- **Sequential Huffman coding.** `BitWriter` and `BitReader` are the bit accumulators, `HuffmanBlocks` and
  `HuffmanScan` the coding of blocks and scans, `WireSymbols` their symbols in the numbers of the standard,
  `HuffmanScanEncoder` the encoder that writes an MCU whole or not at all, `HuffmanScanDecoder` the decoder.
  `HuffmanStatistics`, `OptimisedCoding` and `OptimisedScan` are the statistics pass, the tables built from it, and
  both passes one after the other.
- **Progressive Huffman coding.** `BandItems` and `BandReading` are the symbols of an AC band with its end-of-band
  runs and correction bits, written and read; `BandRoundTrip` and `EobRuns` prove that they invert each other,
  `LongestRuns` that runs are as long as they can be; `BandEncoder`, `BandBlockEncoder`, `ProgressiveEncoder`,
  `BandDecoder` and `ProgressiveDecoder` are the procedures; `ProgressiveStatistics` and `OptimisedProgressive` the
  two passes.
- **Whole compressions.** `ScanScript`, `SimpleProgression` and `PassSchedule` are the script and the passes;
  `ScriptLegality` and `HeaderCheck` say in plain numbers which scripts are legal and how a decompressor checks them;
  `ProgressiveRun` and `HuffmanRun` follow an image through all scans of a script.
- **Controllers.** `ImageGeometry`, `McuStream` and `StreamOrder` say which MCUs a scan has and in which order;
  `CoefficientController` is the controller in its three modes (from samples, from a full-image buffer, from a
  transcoder's arrays); `EntropySink` and `SuspendedScan` put the Huffman encoder behind it; `ScanTours` shows that
  the controllers visit blocks as the whole-run theorems ask. `RowPreprocessor` and `ScanlineInput` are the rows in
  front.

Where code works in place, so does the model: coders and controllers are classes, tables and blocks are arrays, loops
carry invariants, and each method is proved against a function whose own properties are lemmas. Errors that end a
compression are results of methods.

Four statements turn out to hold only under a condition, which the lemmas give exactly:

- Magnitudes round-trip through the arithmetic coder just when they are below 32768
  (`Magnitude.DcMagnitudeRoundTrip`), and an MCU just when each DC difference is at most 32768
  (`McuCoding.McuRoundTrip`); beyond that the decoder reports a bad code.
- A decompressor that checks scan headers lets pass more than legal scripts: Ah and Al above 10, and coefficients sent
  again although complete (`ScriptLegality.DecoderIsLaxer` gives the exact difference).
- The standard's 49 DC bins suffice just when the difference is at most 32768 (`Magnitude.DcBins`); a larger one still
  stays within the 64 bins allocated.
- Of two counted symbols, the one that occurs more often gets a code no longer than the other's as long as no code
  exceeds 16 bits (`OptimalTable.OftenIsShorter`). When the 16-bit limit shortens codes, it gets the longer code just
  when Huffman's procedure gives both the same length, its symbol value is the higher, and the limited counts part the
  symbols of that length between the two (`ShortenedCodes.LongerExactly`); `ShortenedCodes.OftenButLonger` gives
  counts for which that happens. So the doubt voiced at jpeg/jchuff.c:1373-1376 is settled: ignoring the adjusted
  lengths keeps the order of Huffman's lengths (`OptimalTable.OrderKept`), but symbols of one length are told apart by
  value, not by count.

`dafny verify dfyconfig.toml` checks the whole project.

## Model

| member | source | states |
|---|---|---|
| ProbabilityTable.Lookup | jpeg/jaricom.c:31-152 | every row of the estimation table has a Qe above zero and below 0x8000, the least interval, and both successors within the table |
| Adaptation.EstimateMoves | jpeg/jaricom.c:31-152 | in every row the estimate falls after the more probable symbol, except in the last, and after the less probable one it rises or else the row switches sense; no other row leads to the fixed one |
| Adaptation.Adapts | jpeg/jcarith.c:230-262 | after the less probable bit of a context that bit is the more probable one exactly when the row switches; after the more probable bit the state moves just when the interval has to be renormalised; no other bin changes |
| Adaptation.MoreProbableIsWider | jpeg/jcarith.c:235-262 | of the part of size qe and the rest, the rest lying below, the more probable bit gets the wider one |
| Adaptation.Doubled | jpeg/jcarith.c:265-310 | renormalising doubles the interval just until its width is at least 0x8000 |
| Adaptation.FixedStays | jpeg/jcarith.c:573-577 | decisions of fixed probability leave their bin in row 113 |
| Adaptation.Learns | jpeg/jcarith.c:218-311 | from any statistics and in any context but the fixed one, coding the same bit often enough makes it the more probable symbol, with the least estimate of the other, and keeps it so |
| IntervalCoder.ChooseRecognise | jpeg/jdarith.c:148-177 | the two sub-intervals of a decision split the interval, both are nonempty, and the decoder's reading of a half, with the conditional exchange, gives back the bit and the next bin the encoder chose it for |
| IntervalCoder.DecodeInvertsEncode | jpeg/jdarith.c:105-182 | one decision, between the exact coders: a decoder at any value that remains in the encoder's interval answers with the bit coded and stays synchronised |
| IntervalCoder.ExactRoundTrip | jpeg/jdarith.c:105-182 | between the exact coders that the two register machines refine: a decoder at any value of the final interval replays every decision of a sequence and ends with the encoder's statistics |
| ArithmeticEncoder.Encoder.Encode | jpeg/jcarith.c:218-311 | after the decision the registers stand for exactly the interval the exact coder narrows to: written bytes, pending zeros, buffered byte, stacked 0xFF bytes and register c together equal its unbounded lower end |
| ArithmeticEncoder.Encoder.ByteOut | jpeg/jcarith.c:253-306 | moving a byte out of the register keeps what is represented in all three cases: carry, possible carry, none; a carry never finds the buffer empty |
| ArithmeticEncoder.TopByte | jpeg/jcarith.c:253-290 | the byte taken from the register is at most 0x11F, so the byte kept after a carry is at most 0x1F and never 0xFF; on a carry the decided bytes are not all 0xFF |
| ArithmeticEncoder.CarryDecided | jpeg/jcarith.c:256-270 | a carry into the buffered byte turns the stacked 0xFF bytes into zeros and adds exactly one to the bytes decided so far |
| ArithmeticEncoder.RegisterBound | jpeg/jcarith.c:28-46 | in every reachable state c and the upper end c + a stay within 28 bits |
| ArithmeticEncoder.FinalAligned | jpeg/jcarith.c:140-146 | the value chosen at termination is in the final interval, and if the interval holds a multiple of 65536 it is that one |
| ArithmeticEncoder.Encoder.FinishPass | jpeg/jcarith.c:132-193 | the finished segment denotes a value inside the final interval, does not end in a zero byte, and no shorter byte string denotes a value of the interval |
| ShortestCode.ShortestData | jpeg/jcarith.c:198-216 | data without a trailing zero byte that denote the most aligned value of an interval are at most as long as any data that denote a value of it |
| ByteStream.StuffedPairs | jpeg/jcarith.c:148-192 | in the bytes written for a segment every 0xFF is followed by 0x00 |
| ByteStream.ReadStuffed | jpeg/jdarith.c:118-141 | a reader that drops stuffed zeros recovers the data written and stops at the marker behind them, or at the end of the input |
| ByteStream.FractionZeros | jpeg/jdarith.c:119-137 | supplying zero bytes behind the data does not change the number they denote |
| ArithmeticDecoder.DecoderObject.Decode | jpeg/jdarith.c:105-182 | for any input bytes: the bit returned and the new registers are those of the exact decoder; only bins the standard provides for are used; where the segment ends does not change |
| ArithmeticDecoder.SplitRepresented | jpeg/jdarith.c:148-177 | comparing the register with the shifted threshold decides as comparing the exact offset with it, whatever bytes are still to come |
| ArithmeticDecoder.RegisterBound | jpeg/jdarith.c:47-61 | for any input, c < a * 2^ct <= 2^23 in normal operation |
| Magnitude.CategoryRoundTrip | jpeg/jcarith.c:747-765 | reading the unary category follows the one written, from any bin on, and gives up exactly when the magnitude is 2^15 or more |
| Magnitude.DcMagnitudeRoundTrip | jpeg/jdarith.c:548-571 | a DC magnitude is read back, with its category and without a decision left over, if and only if it is below 2^15; otherwise an overflow is reported |
| Magnitude.AcMagnitudeRoundTrip | jpeg/jdarith.c:600-626 | the same for AC magnitudes with their two groups of bins |
| Magnitude.DcBins | jpeg/jcarith.c:744-770 | a DC magnitude uses only the standard's 49 bins if and only if the difference is at most 32768 |
| Magnitude.AcBins | jpeg/jcarith.c:800-826 | an AC magnitude below 32768 uses only the standard's 245 bins, and above the conditioning index only such a one does |
| DecisionTables.DcDecisionsAre | jpeg/jcarith.c:724-769 | the decisions of a DC value one by one with the numbers of their bins, from the difference alone |
| DecisionTables.DcNextIs | jpeg/jcarith.c:431-435 | the next context is 0 when the difference is at most 2^L / 2 in magnitude, otherwise 4 or 8 by its sign up to 2^U and 12 or 16 beyond; the next prediction is the value itself |
| DecisionTables.MagnitudeIs | jpeg/jcarith.c:510-548 | the decisions of a nonzero AC value one by one, with category bins from 189 up to the conditioning index and from 217 above it |
| DecisionTables.BandDecisionsAre | jpeg/jcarith.c:496-550 | a band is coded coefficient by coefficient: the end of the block is asked for at its start and behind each nonzero coefficient, up to the last of these |
| DecisionTables.RefineDecisionsAre | jpeg/jcarith.c:620-684 | the same for a refinement: the end of the block is asked for only behind the last coefficient known before, and known coefficients take one bit |
| BlockCoding.DcRoundTrip | jpeg/jdarith.c:261-305 | a DC value is decoded with the prediction and context the coder goes on with if and only if the difference is at most 2^15; otherwise the code is bad |
| BlockCoding.BandRoundTrip | jpeg/jdarith.c:325-393 | decoding an AC band into zeros delivers every coefficient divided by 2^Al towards zero, for any band and conditioning |
| BlockRefinement.RefineRoundTrip | jpeg/jdarith.c:434-501 | decoding a refinement into a block that holds the band down to bit Al + 1 makes it hold the band down to bit Al |
| BlockRefinement.EndsAgree | jpeg/jdarith.c:454-458 | the end of the previous stage that the encoder finds in the coefficients is the one the decoder finds in what it has |
| Levels.AcLevelIs | jpeg/jcarith.c:484-494 | an AC coefficient sent down to bit Al is the multiple of 2^Al nearest to it on the side of zero |
| Levels.DcLevelIs | jpeg/jcarith.c:388-391 | a DC coefficient sent down to bit Al is the greatest multiple of 2^Al not above it |
| Levels.DcOneBit | jpeg/jcarith.c:579-582 | a DC refinement adds bit Al |
| Levels.AcOneBit | jpeg/jcarith.c:660-672 | an AC refinement adds bit Al of the magnitude and never changes the sign of a nonzero coefficient |
| McuCoding.McuRoundTrip | jpeg/jdarith.c:508-633 | for each of the five kinds of scan: decoding the decisions of an MCU succeeds if and only if every DC difference is at most 2^15, and then delivers its blocks with the same predictions and contexts on both sides |
| ArithmeticBlockEncoder.EncodeDc | jpeg/jcarith.c:361-444 | codes exactly the decisions of a DC value and returns the prediction and context they leave |
| ArithmeticBlockEncoder.EncodeBand | jpeg/jcarith.c:453-550 | codes exactly the decisions of an AC band in a first pass |
| ArithmeticBlockEncoder.EncodeRefine | jpeg/jcarith.c:593-684 | codes exactly the decisions of a refinement of an AC band |
| ArithmeticBlockDecoder.DecodeDc | jpeg/jdarith.c:242-312 | reads a DC value as the pure reader does, for any input, and fails just when that does |
| ArithmeticBlockDecoder.DecodeBand | jpeg/jdarith.c:321-393 | reads an AC band into the block in place as the pure reader does, for any input |
| ArithmeticBlockDecoder.DecodeRefine | jpeg/jdarith.c:434-501 | refines a band in place as the pure reader does, for any input |
| ArithmeticScanEncoder.ScanEncoder.EncodeMcu | jpeg/jcarith.c:691-832 | one more MCU, of any kind of scan, is coded, behind a restart marker when the interval is used up |
| ArithmeticScanEncoder.ScanEncoder.EmitRestart | jpeg/jcarith.c:318-353 | the segment is complete, the marker carries the interval's number modulo 8, and statistics of the scan's tables, predictions, contexts and registers are as at the start of a segment |
| ArithmeticScanEncoder.ScanEncoder.Finish | jpeg/jcarith.c:132-193 | the destination holds the segments of all intervals with their markers, and together they code all MCUs |
| ArithmeticScanDecoder.ScanDecoder.DecodeMcu | jpeg/jdarith.c:508-633 | blocks and state follow the reader of the scan, through restarts and bad codes: after a bad code blocks are left alone until the next restart |
| ArithmeticScanDecoder.ScanDecoder.ProcessRestart | jpeg/jdarith.c:189-222 | reads the marker and resets statistics, predictions, contexts and registers as the encoder did |
| ScanCoding.SegmentRoundTrip | jpeg/jdarith.c:105-182 | a decoder opened on data that code an interval replays its decisions and ends with the encoder's statistics |
| Predictions.ResetIs | jpeg/jcarith.c:325-345 | at the start of an interval the bins of DC tables in use are zero if DC differences are coded, those of AC tables in use if AC coefficients are, and all others are as before |
| Predictions.PredictedByLast | jpeg/jcarith.c:388-405 | the prediction left for a component is the DC value of its last block, cut down to bit Al; a component without a block keeps its own |
| Predictions.FirstBlock | jpeg/jcarith.c:335-339 | the first DC value of an interval is coded from bin 0 of its table against a prediction of zero |
| Predictions.RefineBitsAre | jpeg/jcarith.c:573-582 | a DC refinement is bit Al of each DC coefficient in order, of fixed probability in arithmetic coding and as it is in Huffman coding |
| ScanCoding.AllIntervals | jpeg/jdarith.c:189-222 | every interval of a scan is read back from its own segment, the statistics carried over or reset as on the coding side |
| ScanCoding.ArithmeticRoundTrip | jpeg/jdarith.c:508-633 | for every sequence of MCUs, assignment of tables and restart interval: read from the wire, markers and all, a scan delivers what was coded and leaves the coder's statistics |
| ScanCoding.McusRoundTrip | jpeg/jcarith.c:691-832 | the same with the MCUs as one sequence, whatever intervals they fall into |
| MarkerReading.ReadRestartMarker | jpeg/jdmarker.c:1257-1289 | consumes the restart marker if it is the one expected, and otherwise leaves what resynchronisation comes to |
| MarkerReading.ResyncToRestart | jpeg/jdmarker.c:1337-1378 | scans over prior restart markers and invalid ones to the first marker that is not, takes it off the input if it is the one desired or far from it, and leaves it if it is one of the next two or no restart marker |
| MarkerReading.ActionIs | jpeg/jdmarker.c:1347-1360 | by distance from the marker desired, counted round eight: one or two behind or below 0xC0 is scanned over, one or two ahead or no restart marker is left, anything else is taken |
| MarkerReading.ResyncedIs | jpeg/jdmarker.c:1337-1378 | resynchronisation ends with the first marker that is not behind |
| RestartIntervals.MarkerBetween | jpeg/jcarith.c:318-330 | between any two parts of a scan stands the restart marker whose number is that of the intervals before it modulo 8 |
| SegmentedReading.ScanRoundTrip | jpeg/jdarith.c:189-222 | for any decoding process: if the bytes of every interval read back right, so does the whole scan from the wire, with its markers |
| ScanScript.ValidateScript | jpeg/jcmaster.c:357-489 | accepts a script as progressive, or as sequential, if and only if it is legal as such; a rejection names the first scan at fault |
| ScanScript.ProgressIsLastSent | jpeg/jcmaster.c:422-461 | the table of last bit positions kept while validating says of each coefficient the Al of the last scan that sent it, and -1 if none did |
| ScanScript.LegalIsClean | jpeg/jdarith.c:647-697 | with a script that the compressor accepts, the decompressor meets no fatal progression parameter and no warning in any scan, and keeps the same record |
| ScriptLegality.LegalPlainly | jpeg/jcmaster.c:357-489 | a progressive script is legal if and only if each scan is right in plain numbers, given which bit the scans before it sent last of each coefficient, and every component's DC is sent |
| ScriptLegality.LegalSequentialPlainly | jpeg/jcmaster.c:447-489 | a sequential script is legal if and only if every scan has 1 to 4 ascending components and the fixed parameters, and every component is in exactly one scan |
| ScriptLegality.ComponentCounts | jpeg/jcmaster.c:397-408 | for ascending components of an image, validation accepts the number of them just when setting up the scan does: up to four |
| ScriptLegality.OneScanForAll | jpeg/jcmaster.c:399-400 | one sequential scan of all components is legal if and only if there are one to four |
| ScriptLegality.DecoderIsLaxer | jpeg/jdarith.c:647-682 | a scan is legal next if and only if the decompressor passes it without a warning, Ah and Al are at most 10, and no coefficient in it was complete |
| HeaderCheck.CheckHeader | jpeg/jdarith.c:647-682 | the check of a scan header reports a fatal error, a warning or nothing as specified, and brings the record of coefficients up to date unless the error is fatal |
| SimpleProgression.Generate | jpeg/jcparam.c:563-635 | fills exactly the computed number of scans with the recommended script, reusing old space if it is large enough |
| SimpleProgression.RecommendedIsComplete | jpeg/jcparam.c:563-635 | for any number of components the recommended script is legal and ends at Al = 0 for every coefficient |
| ScriptLegality.DcInterleaved | jpeg/jcparam.c:536-556 | the recommended script has 2 + 4n scans with interleaved DC up to four components, and 6n without beyond |
| ScriptLegality.PlainScriptIs | jpeg/jcparam.c:625-634 | the AC scans of the recommended script for any number of components: bands 1 to 5 and 6 to 63 down to bit 2, then 1 to 63 for bit 1 and for bit 0, and where they stand between the DC scans |
| ScriptLegality.ColourScriptIs | jpeg/jcparam.c:604-624 | the ten scans for colour images, Cr before Cb |
| SimpleProgression.ReduceScript | jpeg/jcmaster.c:492-522 | cuts the script down in place to the scans within the coefficients left |
| SimpleProgression.ReducedIsLegal | jpeg/jcmaster.c:492-522 | a legal script stays legal when cut down, and sends the coefficients left just as before and no others |
| PassSchedule.Compress | jpeg/jcapimin.c:154-189 | a compression runs exactly as many passes as were announced, with the events of the schedule in order, for any script, optimising or not, transcoding or not |
| PassSchedule.Master.PrepareForPass | jpeg/jcmaster.c:664-739 | starts the next pass, or the one after when a DC refinement scan needs no statistics |
| PassSchedule.Master.FinishCompress | jpeg/jcapimin.c:154-189 | the loop over the passes left ends with every scan done and the last pass marked as last |
| PassSchedule.HeadersInOrder | jpeg/jcmaster.c:706-739 | the frame header is written once, before all scan headers, and scan headers 0 to n - 1 once each in order, whether or not statistics passes are skipped |
| PassSchedule.TablesAreReady | jpeg/jcmaster.c:664-739 | with optimisation, no scan that needs a table is put out unless the pass just before gathered that scan's statistics |
| PassSchedule.GatheredExactly | jpeg/jcmaster.c:694-712 | every scan is put out once; its statistics are gathered once with optimisation, except for a DC refinement scan that is not the first pass of a compression from samples, which never gets a statistics pass; as many passes are run as these |
| PassSchedule.PassesAreWhole | jpeg/jcmaster.c:664-739 | every pass begun runs through headers, rows and end without another in between |
| ProgressiveRun.ScanAdvances | jpeg/jdarith.c:640-743 | a decoded scan of a legal script, stored block by block, makes every block hold what the script has sent so far and touches no other block |
| ProgressiveRun.ProgressiveReconstruction | jpeg/jcarith.c:361-684 | when all scans of a legal script are coded by the arithmetic procedures and decoded into zeros, every pass succeeds with equal statistics, and each coefficient ends as its truncation at the last Al sent: exact when that is 0, untouched when never sent |
| ProgressiveRun.SmallDcFits | jpeg/jcarith.c:361-444 | DC coefficients of at most 2^14, as in 8-bit images, never exceed the range of differences |
| HuffmanRun.HuffmanReconstruction | jpeg/jchuff.c:540-910 | the same reconstruction when the scans are coded by the progressive Huffman procedures |
| HuffmanTree.ExactKraft | jpeg/jchuff.c:1279-1327 | merging gives lengths whose Kraft sum is exactly 1 |
| HuffmanTree.Optimal | jpeg/jchuff.c:1279-1327 | the lengths from merging minimise the total of count times length over all lengths with a Kraft sum of at most 1 |
| HuffmanDepth.PseudoSymbolIsDeepest | jpeg/jchuff.c:1266-1327 | an entry of least count and greatest index, as the pseudo-symbol is, has a code of the greatest length |
| HuffmanDepth.HeavierIsHigher | jpeg/jchuff.c:1279-1327 | an entry counted more often is never deeper |
| KraftInequality.PrefixCodeIsFeasible | jpeg/jchuff.c:1266-1327 | the Kraft inequality: the lengths of any prefix code have a Kraft sum of at most 1 |
| KraftInequality.OptimalPrefixCode | jpeg/jchuff.c:1266-1327 | no prefix code for the counted symbols and the pseudo-symbol takes fewer bits in all than Huffman's lengths |
| CodeLengths.PairAndDonor | jpeg/jchuff.c:1352-1363 | in a complete code longer than 16 bits the longest words come in pairs, and there is a length of at least 1 to take a word from |
| CodeLengths.LimitedTotal | jpeg/jchuff.c:1352-1363 | the limit to 16 bits keeps the number of code words, and changes nothing if no word was too long |
| CodeLengths.Limited | jpeg/jchuff.c:1352-1363 | the limit to 16 bits ends, and the counts up to 16 then have a Kraft sum of exactly 1 |
| CodeLengths.WithdrawnLeavesOne | jpeg/jchuff.c:1365-1368 | withdrawing the pseudo-symbol leaves the Kraft sum one word of the greatest length short of 1 |
| TableBuilder.HuffmanSizes | jpeg/jchuff.c:1279-1327 | the in-place merging with linked branches computes the code lengths of Huffman's procedure |
| TableBuilder.LimitSizes | jpeg/jchuff.c:1352-1363 | the in-place adjustment computes the limited counts, without any counter overflowing |
| TableBuilder.GenOptimalTable | jpeg/jchuff.c:1255-1389 | the table left in bits and values is the one the specification builds, and an error exit is taken just when a code would need more than 32 bits |
| OptimalTable.BuiltIsAccepted | jpeg/jchuff.c:190-245 | the table built is accepted where codes are derived, for DC as long as no symbol above 15 was counted |
| OptimalTable.EveryCountHasCode | jpeg/jchuff.c:1329-1385 | a symbol gets a code if and only if it was counted |
| OptimalTable.SizesAreHuffman | jpeg/jchuff.c:1266-1385 | as long as no code exceeds 16 bits, every symbol's code is as long as Huffman's procedure makes it |
| OptimalTable.BuiltIsOptimal | jpeg/jchuff.c:1255-1389 | as long as no code exceeds 16 bits, no prefix code for the symbols and the pseudo-symbol takes fewer bits in all than the codes sent |
| WireSymbols.TooLongIs | jpeg/jchuff.c:1329-1338 | building a table fails just when Huffman's procedure makes some code longer than 32 bits |
| OptimalTable.OrderKept | jpeg/jchuff.c:1373-1384 | the codes sent keep the order of Huffman's lengths and then of symbol values, however lengths were shortened |
| OptimalTable.OftenIsShorter | jpeg/jchuff.c:1373-1384 | a symbol counted more often gets no longer a code, except possibly when Huffman's lengths are equal, the other symbol has the lower value and codes were shortened |
| ShortenedCodes.LongerExactly | jpeg/jchuff.c:1352-1384 | a symbol counted more often gets the longer code if and only if Huffman's lengths are equal, the other symbol has the lower value, and the limited counts part that length between their places in the list |
| ShortenedCodes.OftenButLonger | jpeg/jchuff.c:1352-1384 | with counts 3, 4, 5, 2, 1, 17, 34, ... , 17 * 2^12, the symbol counted five times gets 16 bits and the one counted three times 15 |
| ShortenedCodes.SampleHasTable | jpeg/jchuff.c:1352-1384 | a table is built from those counts, no code before the limit being longer than 32 bits |
| CanonicalCode.PrefixFree | jpeg/jchuff.c:190-221 | in an accepted table no code word is a prefix of another |
| CanonicalCode.NotAllOnes | jpeg/jchuff.c:202-221 | in an accepted table no code word is all ones |
| CanonicalCode.Successive | jpeg/jchuff.c:203-221 | code words are successive numbers from zero on, with zeros appended where the length grows |
| CanonicalCode.DerivedPrefixFree | jpeg/jchuff.c:223-245 | the same of the codes looked up by symbol |
| DerivedTables.MakeEncoderTable | jpeg/jchuff.c:160-246 | succeeds if and only if the table is acceptable, and then gives exactly the listed symbols their code words |
| DerivedTables.MakeDecoderTable | jpeg/jdhuff.c:322-440 | succeeds if and only if the table is acceptable to a decoder, and then the limits of each length and the 8-bit lookahead are right for every code word |
| HuffmanSymbols.SymbolRoundTrip | jpeg/jdhuff.c:591-627 | a code word is read back as its symbol whatever bits follow, and nothing more is consumed |
| HuffmanSymbols.LookaheadAgrees | jpeg/jdhuff.c:360-389 | the eight-bit lookahead finds the code word that bit-by-bit reading finds |
| BitWriter.WorkingState.EmitBits | jpeg/jchuff.c:306-341 | appends exactly the low bits of the code to the bits of the segment, with whole bytes out, stuffed, and 0 to 7 bits left over; suspends only if there is no room for all of them |
| BitWriter.WorkingState.FlushBits | jpeg/jchuff.c:385-393 | pads the last byte with ones; the segment is complete |
| BitStream.HighestFirst | jpeg/jchuff.c:306-341 | bits of a code are sent from the highest down |
| BitStream.FirstIsHighest | jpeg/jchuff.c:318-336 | eight bits make a byte, the first of them its highest |
| BitReader.BitSource.FillBitBuffer | jpeg/jdhuff.c:464-562 | keeps the bits to come, or supplies zeros and takes note when there are too few |
| BitReader.BitSource.GetBits | jpeg/jdhuff.c:464-562 | takes the next n bits to come |
| BitReader.BitSource.HuffDecode | jpeg/jdhuff.c:591-627 | returns the symbol that bit-by-bit reading finds, and leaves the bits behind it, for any input |
| BitReader.BitSource.Restart | jpeg/jdhuff.c:636-668 | the bits to come are those of the segment behind the marker |
| HuffmanBlocks.BlockRoundTrip | jpeg/jdhuff.c:1188-1303 | the bits of a block read back to its coefficients and prediction, used up exactly, with any bits behind |
| WireSymbols.ValueIs | jpeg/jchuff.c:925-960 | a value of category n, magnitude at least 2^(n-1) and below 2^n, is a symbol with n in its low four bits and the run before it in the high four, and n extra bits: x, or x + 2^n - 1 if negative |
| WireSymbols.RangesAre | jpeg/jchuff.c:942-946 | differences below 2048 and AC coefficients below 1024 in magnitude can be coded, and no others |
| WireSymbols.BlockItemsAre | jpeg/jchuff.c:915-1008 | a block is its DC difference, then each nonzero coefficient with the zeros before it, sixteen at a time by code 0xF0, then code 0 unless the last coefficient is nonzero |
| Predictions.HuffmanPredictedByLast | jpeg/jchuff.c:1045-1050 | the prediction left for a component is the DC value of its last block |
| Predictions.HuffmanFirstBlock | jpeg/jchuff.c:489-507 | the first DC value of an interval is coded against zero |
| HuffmanBlockEncoder.EncodeOneBlock | jpeg/jchuff.c:915-1008 | writes the symbols and extra bits of the block in order; reports a missing code or a value out of range just when there is one |
| HuffmanBlockEncoder.CountOneBlock | jpeg/jchuff.c:1121-1188 | adds exactly the symbols the output pass writes for the block to the counts of the two tables |
| HuffmanScanEncoder.SequentialEncoder.EncodeMcu | jpeg/jchuff.c:1015-1065 | an MCU is written whole, behind a restart marker when due, or nothing of the encoder's state changes; for lack of room it is refused only if there is not room for all of it |
| HuffmanScanEncoder.SequentialEncoder.EncodeResuming | jpeg/jchuff.c:1015-1065 | trying again with new room writes the MCU as if the attempts before had not been made |
| HuffmanScanEncoder.SuspensionLeavesNoTrace | jpeg/jchuff.c:254-341 | two encoders that have coded the same MCUs have put out the same bytes and keep the same bits, predictions and counters, whatever room each of them had |
| HuffmanScanEncoder.SequentialEncoder.FinishPass | jpeg/jchuff.c:1072-1104 | the destination holds all intervals with their markers |
| HuffmanScan.HuffmanRoundTrip | jpeg/jdhuff.c:1188-1303 | for every sequence of MCUs, tables and restart interval: read from the wire, a scan delivers what was coded and never runs out of bits |
| HuffmanScanDecoder.SequentialDecoder.DecodeMcu | jpeg/jdhuff.c:1060-1303 | blocks, predictions and restart state follow the reader of the scan, for any input; once the data have run out blocks are left alone |
| HuffmanStatistics.StatisticsGatherer.EncodeMcu | jpeg/jchuff.c:1196-1225 | the counts of all tables equal the numbers of symbols that the output pass writes for the MCUs so far, across restarts |
| OptimisedCoding.CountsBuildable | jpeg/jchuff.c:1255-1264 | counts gathered from blocks are fit to build a table from: some count is not zero, few symbols occur, and the total is in range |
| OptimisedCoding.FinishPassGather | jpeg/jchuff.c:1396-1441 | builds each table that the scan uses once, from its counts, and fails if and only if some code would need more than 32 bits |
| OptimisedCoding.DeriveTables | jpeg/jchuff.c:1450-1549 | derives the codes of all tables used; with tables built from counts this cannot fail |
| OptimisedCoding.OptimisedTablesSuffice | jpeg/jchuff.c:1121-1225 | with tables built from the gathered counts every symbol of every interval has a code |
| OptimisedScan.GatheredCountsReady | jpeg/jchuff.c:1396-1441 | after a statistics pass over at least one MCU the counts of every table the scan uses are fit for the table builder |
| OptimisedScan.CodeOptimised | jpeg/jchuff.c:1015-1441 | statistics pass, tables, output pass: it fails if and only if a value is out of range or a code would need more than 32 bits, never for a missing code, and otherwise puts out the intervals of the scan |
| OptimisedScan.OutputReadsBack | jpeg/jdhuff.c:1188-1303 | what that writes reads back as the MCUs that went in |
| CodedMcus.CodedIs | jpeg/jchuff.c:1052-1062 | the intervals that the restart counter makes are full except the last, which is not empty, and hold the MCUs in order |
| EobRuns.StaysBounded | jpeg/jchuff.c:785-910 | between blocks EOBRUN = 0 implies that no correction bits are kept, EOBRUN is below 0x7FFF, the bits of one more block fit the buffer, and a run never needs more than 14 extra bits |
| EobRuns.RunCovers | jpeg/jchuff.c:458-482 | one end-of-band symbol covers all blocks that joined the run, followed by their correction bits in order, and coding goes on as from the start |
| LongestRuns.RunIsLongest | jpeg/jchuff.c:709-713 | a run of blocks ends only at the last block, before a block with symbols of its own, at 0x7FFF blocks, or when more than 1000 - 64 + 1 correction bits are kept; and at the first of these |
| LongestRuns.BlankRun | jpeg/jchuff.c:885-894 | up to 0x7FFF blank blocks take exactly one end-of-band symbol, and more of them one for each 0x7FFF |
| LongestRuns.RunItemsAre | jpeg/jchuff.c:458-482 | a run of n blocks, 2^m <= n < 2^(m+1), is the symbol 16 m and the m bits of n - 2^m |
| WireSymbols.FirstBodyIs | jpeg/jchuff.c:655-713 | a first pass codes each nonzero coefficient, cut down to bit Al, with the zeros before it as in sequential coding; the band ends in the run just when zeros are left |
| WireSymbols.RefineBodyIs | jpeg/jchuff.c:832-884 | a refinement uses code 0xF0 and symbols with 1 in the low four bits only, and the signs of the coefficients that become nonzero follow in order, 1 for positive |
| BandRoundTrip.SkipRoundTrip | jpeg/jdhuff.c:902-1051 | skipping zeros reads exactly the correction bits of the coefficients passed |
| BandRoundTrip.FirstRoundTrip | jpeg/jdhuff.c:765-844 | a band of a first pass reads back, up to and with the end-of-band run it starts |
| BandRoundTrip.RefineRoundTrip | jpeg/jdhuff.c:902-1051 | a refinement of a band reads back: correction bits are found where section G.1.2.3 puts them, behind the symbol that covers their coefficients |
| EobRuns.BandsRoundTrip | jpeg/jdhuff.c:765-1051 | any sequence of blocks reads back block by block under its end-of-band runs, and the bits are used up exactly |
| BandEncoder.EntropyEncoder.EmitEobrun | jpeg/jchuff.c:458-482 | writes, or counts, the symbol of the pending run and its buffered correction bits, and nothing is pending then |
| BandBlockEncoder.EncodeFirst | jpeg/jchuff.c:627-729 | writes the items of a block of a first pass and keeps the run they leave pending |
| BandBlockEncoder.EncodeRefine | jpeg/jchuff.c:785-910 | writes the items of a block of a refinement, correction bits in coefficient order behind their symbols, and keeps the rest pending; zero runs before new coefficients are at most 15 long |
| BandDecoder.DecodeFirst | jpeg/jdhuff.c:765-844 | reads a band of a first pass in place as the pure reader does, for any input |
| BandDecoder.DecodeRefine | jpeg/jdhuff.c:902-1051 | refines a band in place as the pure reader does, for any input |
| ProgressiveEncoder.ProgressiveEncoder.EncodeMcu | jpeg/jchuff.c:540-910 | one more MCU of any progressive scan is written, or counted by the same code; a missing code or a value out of range is reported only if there is one |
| ProgressiveEncoder.ProgressiveEncoder.FinishPass | jpeg/jchuff.c:1072-1104 | the destination holds all intervals with their markers, each with its last run |
| ProgressiveEncoder.ProgressiveEncoder.FinishCounting | jpeg/jchuff.c:1396-1441 | the counts are those of all symbols of the output pass, with the last end-of-band run |
| ProgressiveStatistics.OptimisedTablesSuffice | jpeg/jchuff.c:1396-1441 | with tables built from the gathered counts every symbol of every interval has a code |
| OptimisedProgressive.GatheredCountsReady | jpeg/jchuff.c:1396-1441 | after a statistics pass over at least one MCU the counts of every table the scan uses are fit for the table builder |
| OptimisedProgressive.CodeOptimised | jpeg/jchuff.c:540-910 | both passes of a progressive scan: it fails if and only if a value is out of range or a code would need more than 32 bits, never for a missing code |
| ProgressiveCoding.ProgressiveRoundTrip | jpeg/jdhuff.c:695-1051 | for every progressive scan, tables and restart interval: read from the wire, a scan delivers what was coded |
| ProgressiveDecoder.ProgressiveDecoder.DecodeMcu | jpeg/jdhuff.c:695-1051 | blocks and state follow the reader of the scan, for any input; once the data have run out blocks are left alone |
| ImageGeometry.NestedCeil | jpeg/jcmaster.c:326-352 | blocks padded to whole groups of h are exactly h times the MCUs of the image, for any width and sampling factors: MCUs_per_row * h_samp_factor is the padded width |
| ImageGeometry.SizesAre | jpeg/jcmaster.c:326-352 | MCUs and blocks of components are the least numbers that cover the image |
| ImageGeometry.PerScanSetup | jpeg/jcmaster.c:571-653 | fails if and only if there are too many components or blocks in an MCU, and otherwise sets up what the layout of the scan says |
| McuStream.StreamNext | jpeg/jccoefct.c:143-222 | the MCU at the place a controller has reached is the next of the scan's stream |
| StreamOrder.SingleStream | jpeg/jcmaster.c:571-600 | a scan of one component goes over the real blocks row by row, one to an MCU, without dummies |
| StreamOrder.InterleavedStream | jpeg/jccoefct.c:155-205 | an interleaved scan goes over the MCUs row by row; each has v rows of h blocks of every component, one component after the other |
| StreamOrder.DummyBlocks | jpeg/jccoefct.c:172-190 | blocks beyond the image have no AC coefficients and repeat the DC value of the last block of the row, or of the last of their group in the row above |
| CoefficientController.CoefController.FillMcu | jpeg/jccoefct.c:162-205 | in each of the three modes the MCU made at a place has the same blocks, dummy blocks at the right and the bottom included |
| CoefficientController.CoefController.StartPass | jpeg/jccoefct.c:100-130 | a new pass begins at the first MCU of its own layout, over the same image and buffer |
| CoefficientController.CoefController.Compress | jpeg/jccoefct.c:143-222 | hands over the MCUs of an interleaved row in order; after a refusal the place is kept, and what was taken is a prefix of the scan's stream |
| CoefficientController.CoefController.CompressFirstPass | jpeg/jccoefct.c:248-332 | the same, with the rows of the full-image buffer filled first |
| CoefficientController.LoadComponent | jpeg/jccoefct.c:261-325 | fills the buffer's rows with the padded image: real blocks, right-edge dummies, and bottom dummies MCU by MCU |
| CoefficientController.RowFromCoefficients | jpeg/jctrans.c:309-330 | blocks from a transcoder's arrays followed by dummies made on the fly are the row of the padded image |
| CoefficientController.WholeScan | jpeg/jccoefct.c:345-400 | a controller of any mode that has reached the end of the image has handed over the scan's MCUs, each once and in order, whatever was refused on the way |
| CoefficientController.SameMcus | jpeg/jctrans.c:274-348 | two controllers at the same place of the same scan, in whatever modes, have handed over the same MCUs |
| EntropySink.McuSink.EncodeMcu | jpeg/jccoefct.c:194-202 | an MCU accepted is exactly one more MCU coded by the encoder behind the sink |
| SuspendedScan.CompressScan | jpeg/jccoefct.c:143-222 | a controller driving the Huffman encoder through a buffer that is emptied at any times: if the scan completes, its bytes are those of the scan's MCUs and do not depend on where it had to stop |
| ScanTours.VisitOnce | jpeg/jccoefct.c:143-222 | no block is visited twice in a scan |
| ScanTours.VisitsGiveStream | jpeg/jccoefct.c:345-400 | gathering the blocks in the order of the visits gives the scan's MCUs |
| ScanTours.ControllerTours | jpeg/jccoefct.c:345-400 | for any image size, sampling factors and legal scan the controllers visit the blocks as the theorems on whole runs require |
| RowPreprocessor.CreateContextBuffer | jpeg/jcprepct.c:269-308 | the row pointers wrap around: five groups of pointers over three groups of rows |
| RowPreprocessor.PrepController.TakeRows | jpeg/jcprepct.c:209-231 | rows put into the ring keep every row the next group needs, with the first row repeated above the image |
| RowPreprocessor.PrepController.PadRing | jpeg/jcprepct.c:232-244 | at the bottom the last row is repeated as far as the next group needs |
| RowPreprocessor.PrepController.ReadWindow | jpeg/jcprepct.c:245-259 | through the wrapped pointers the downsampler sees rows g*v - 1 to (g + 1)*v of the image, clamped to its first and last row |
| RowPreprocessor.PrepController.PreProcessContext | jpeg/jcprepct.c:196-261 | however rows are split over calls: rows are taken in order, and every group handed on was that clamped window |
| RowPreprocessor.PrepController.PreProcessData | jpeg/jcprepct.c:127-187 | the same without context, with the last row repeated to fill the last group |
| ScanlineInput.MainController.ProcessData | jpeg/jcmainct.c:113-159 | across any suspensions rows are taken once and in order; the count reported is one short while suspended and never goes below zero |
| ScanlineInput.RowsOfMcus | jpeg/jcmaster.c:326-352 | the number of rows of MCUs worked out from the scaled height is that of the source rows |
| ScanlineInput.Compressor.WriteScanlines | jpeg/jcapistd.c:76-111 | next_scanline advances by the rows accepted and never beyond the image; unless suspended all rows offered are taken |
| ScanlineInput.Compressor.Complete | jpeg/jcapistd.c:76-111 | next_scanline reaches the image height if and only if the last row of MCUs has been accepted, and then every row of the image was processed once and in order |

## Left out

- ProbabilityTable.Lookup: the sizes Qe are data of the standard; `Adaptation.EstimateMoves` states the order they keep along all transitions, not the numbers.
- Blocks are kept in zigzag order, so `jpeg_natural_order` does not appear.
- The forward DCT, quantisation, colour conversion and downsampling are not computed: blocks and rows are taken as given.
- Samples are 8 bits wide and right shifts of negative numbers are arithmetic; other compile-time choices are not modelled.
- Bit operations on the code registers are modelled as arithmetic; where `|` joins fields, the fields are proved disjoint.
- ArithmeticEncoder.Encoder.Encode: counters `sc` and `zc` are unbounded, because a wrap-around would need 2^31 pending bytes.
- ArithmeticScanEncoder.ScanEncoder.EncodeMcu: predictions are unbounded integers; those of 16-bit coefficients fit the C type.
- ArithmeticScanEncoder.ScanEncoder.EmitRestart: a destination that cannot take a byte is an error exit in the original and is not modelled; the destination here takes every byte.
- ArithmeticDecoder.DecoderObject.Decode: the input is a byte sequence that ends in a made-up end-of-image marker, as the file source supplies it; suspension of the input is an error exit in the original and not modelled.
- HuffmanScanDecoder.SequentialDecoder.DecodeMcu: suspension of the input in the middle of an MCU is not modelled, nor is the undoing of newly nonzero coefficients that serves it.
- HuffmanScanEncoder.SequentialEncoder.EncodeMcu: a destination either empties its buffer whenever it is full or refuses from then on; one that empties it once and then refuses within the same MCU is not modelled.
- HuffmanScanEncoder.SequentialEncoder.FinishPass: does not promise success when the buffer cannot be emptied, where the original takes an error exit.
- ProgressiveEncoder.ProgressiveEncoder.EncodeMcu: the destination empties its buffer whenever it is full, because the original takes an error exit otherwise.
- TableBuilder.GenOptimalTable: requires a nonzero count, at most 254 symbols and a total of at most 10^9, as the original's callers guarantee; `OptimisedScan.GatheredCountsReady` proves the first two of gathered counts.
- OptimisedScan.CodeOptimised: requires fewer than 10^9 symbols and extra-bit fields in the scan, because the 32-bit counters and the constant in the table builder allow for no more.
- ProgressiveEncoder.ProgressiveEncoder.FinishCounting: all counters are cleared at the start of a pass, not only those of tables in use.
- EntropySink.McuSink.EncodeMcu: without a Huffman encoder behind it, the sink accepts or refuses each MCU as a given list of answers says; the arithmetic coder, which never refuses, and the progressive encoder are covered as such sinks.
- ScanlineInput.MainController.ProcessData: whether the coefficient controller takes a row of MCUs is likewise a given list of answers.
- CoefficientController.CoefController.Compress: virtual arrays are plain matrices, and the pointers to dummy blocks are values, so that aliasing of the dummy workspace is not captured.
- CoefficientController.CoefController.FillMcu: the three controllers share one class with a mode, because their loops differ only in where a row of blocks comes from.
- RowPreprocessor.PrepController.PreProcessContext: one component's rows are modelled; the others are treated alike.
- RowPreprocessor.PrepController.PreProcessData: groups made up to fill the last row of MCUs are counted, not their contents.
- SuspendedScan.CompressScan: does not say how much room suffices; `HuffmanScanEncoder.SequentialEncoder.EncodeMcu` says that room for one MCU does.
- McuCoding.McuRoundTrip: coefficient limits for scaled blocks (`component_needed`, `coef_limit`) are not modelled; every coefficient is delivered.
- Marker payloads and the order of markers other than RSTn, frame and scan headers are not modelled.
- The raw-data interface, the full-buffer main controller, progress monitors, decoder-side block smoothing and the decompression interface are not modelled.
