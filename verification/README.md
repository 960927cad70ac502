# Entropy coding of the JPEG library

This project models the two entropy coders of the library, each with its decoder, and what
they rest on: the construction of Huffman tables, the scan scripts of progressive JPEG and
the control of compression passes. The reference is ITU-T T.81 (ISO/IEC 10918-1); the
arithmetic decoder's fixed estimate is that of ITU-T T.851.

Objects that the library updates in place are classes with the same fields (`BinaryEncoder`,
`BinaryDecoder`, `HuffEncoder`, `BitReader`, the two `ScanEncoder`s and `ScanDecoder`s,
`Master`); algorithms on arrays work on arrays. Every method is proved against a function
of its inputs or of the old state, and the theorems are about those functions. An error exit
is a result value; a source that runs dry is a failed call that can be repeated.

Five theorems join the parts:

- **Arithmetic coding is lossless** (`ArithRoundTrip.Lossless`): whatever decisions are
  encoded, a decoder that asks for the same bins in the same order gets the same bits and
  the same statistics, although the two use different register layouts. `ArithExact` says
  what the encoder's state denotes at every moment, in exact numbers, and `ArithShortest`
  that no shorter segment would do.
- **Optimised Huffman transmission** (`HuffTransmission.Transmit`): statistics pass, optimal
  tables, output pass, and decoding from a source that delivers its bytes in arbitrary
  pieces restore the MCUs; it fails exactly when a coefficient is out of range or a code is
  too deep.
- **Optimal codes** (`HuffmanTree.HuffmanLengths`, `HuffmanLimit.LimitLengths`,
  `OptimalTable.GenOptimalTable`): the in-place procedure is optimal, its limiting is
  sound, its tables are accepted, and it gives up exactly when the counts put a symbol
  below depth 32.
- **AC refinement with suspension** (`HuffRefinement.DecodeRefine`): any number of attempts
  that are broken off and a last one that is not leave the refined block.
- **Progressive reconstruction** (`ArithReconstruction.TransmitScript`,
  `HuffReconstruction.TransmitScript`): every script that is accepted restores every
  coefficient to the precision it was last sent at, without a decoder error or warning.

## Structure

| part | files |
|---|---|
| shared | Prelude, ByteStream (stuffing, markers), Coefficients (point transforms), Scans |
| arithmetic coder | ArithTable, ArithCoder, ArithEstimation, ArithInterval, ArithExact, ArithShortest, ArithRoundTrip, ArithExample, ArithEncoder, ArithDecoder |
| arithmetic MCUs and scans | ArithBinarisation, ArithAreas, ArithMasks, ArithMcuEncoder, ArithMcuDecoder, ArithScan, ArithRestarts, ArithScanEncoder, ArithScanDecoder |
| Huffman tables | HuffmanBound, HuffmanTree, HuffmanDepth, HuffmanLimit, OptimalTable, HuffCode, HuffSymbols, HuffPasses |
| Huffman bits | HuffBits, HuffEncoder, HuffReader, HuffTokenReader |
| Huffman MCUs and scans | HuffBinarisation, HuffViews, HuffRuns, HuffMcuEncoder, HuffMcuDecoder, HuffRefinement, HuffScan, HuffStates, HuffCourse, HuffScanEncoder, HuffScanDecoder, HuffStatistics, HuffTransmission |
| pictures | ScanScript, SimpleProgression, PassController, Reconstruction, ArithReconstruction, HuffReconstruction |

Large facts that a proof carries along are wrapped as `forall k :: Focus(layer, k) ==> P`
and marked "Closed" in a comment; `assert Focus(layer, 0)` opens them. This keeps the
proofs small and means nothing else.

A ghost parameter `on` (or `intact`, or an optional `course`) says whether the source is
known to hold what the encoder produces. When it does not, the contract still promises that
the call ends, writes only the scan's own coefficients and leaves the decoder usable.

## Findings

Facts about the code that the proofs brought out.

- `jpeg_gen_optimal_table` can fail. A comment at jchuff.c:1332 reports that the standard
  takes a code length over 32 to be impossible; `OptimalTable.FibonacciRefused` gives counts, with a total of
  9227465, on which it gives up. It never fails on a smaller total
  (`HuffmanDepth.ShortBelow`), and `OptimalTable.GenOptimalTable` states exactly when it
  does: when Huffman's merging puts the pseudo-symbol deeper than 32, which
  `HuffmanDepth.Depth` computes from the counts.
- The comment at jchuff.c:1374 asks why the symbols may be listed by the lengths from before
  they were limited. `OptimalTable.GenOptimalTable` proves that the resulting table has a
  code for exactly the symbols counted.
- The arithmetic encoder codes DC differences of any magnitude up to 65535, but the decoder
  takes magnitudes above 32768 for corrupt data (jdarith.c:283, jdarith.c:550).
  `ArithMcuDecoder.DecodeDcDifference` has the exact test, and `ArithScanDecoder.DecodeScan`
  proves that a scan is restored if and only if all its differences pass it, for blocks
  whose DC places were zero before.
- A bad Huffman code is not an error: after 17 bits without a match the decoder takes
  symbol 0 (`HuffSymbols.HuffDecode`).
- Refining AC coefficients, the arithmetic decoder looks for the previous end of block in
  its own block, the encoder in the original one, and below the band the two may differ.
  `ArithMcuDecoder.AgreeSuffices` proves that this makes no difference.

## Model

| member | source | states |
|---|---|---|
| ArithRoundTrip.Lossless | jcarith.c:218-311 | for every table, bins and list of (bin, bit) decisions: the stuffed segment followed by any marker makes the decoder return the same bits, end with the same bins, and never miss a byte |
| ArithRoundTrip.InStep | jdarith.c:105-182 | encoder and decoder in step stay in step over all remaining decisions: equal interval widths, aligned code values, the same bins |
| ArithRoundTrip.DecisionRecovered | jdarith.c:153-181 | comparing C with the upper part of the interval recovers the coded bit, the new bin and the remaining offset, for either sense of the bin |
| ArithRoundTrip.DecodeStaysBefore | jdarith.c:113-146 | reading stays in front of the marker: after any decision the same marker and the same bytes behind it are ahead |
| ArithCoder.DecodeChoiceInverts | jdarith.c:153-181 | the decoder's conditional exchange undoes the encoder's: same bit, same part of the interval, same next state |
| ArithEstimation.MpsCoded | jcarith.c:248-259 | coding the symbol taken for more probable leaves the bin alone unless the interval is renormalised; then the sense stays and the estimate for the other symbol falls, except in the two states that lead to themselves |
| ArithEstimation.LpsCoded | jcarith.c:236-247 | coding the other symbol always renormalises, and then its estimate grows, or the senses are exchanged, from an estimate near one half and to one that is not larger; the fixed state stays |
| ArithEstimation.PartsShared | jcarith.c:234-259 | the two symbols share the whole interval; the part on top is as wide as the estimate, and the symbol taken for more probable never gets the smaller part |
| ArithExample.FirstBytes | jcarith.c:218-311 | the first two bytes of the test sequence of section K.4.1 of T.81 lead the bin to state 19, and a segment of just these is the byte 0x65 |
| ArithExact.EveryState | jcarith.c:218-311 | in every reachable state A lies in [0x8000, 0x10000], emitted bytes, pending zeros, held byte, stacked 0xFF bytes and C denote exactly the interval of a coder with real numbers, a carry always finds a held byte below 0xFF, and the byte after a carry is not 0xFF |
| ArithExact.Finished | jcarith.c:132-193 | the finished segment is a number inside the final interval, and ends in no zero byte |
| ArithShortest.MostZeros | jcarith.c:142-145 | every power of two that divides some value of the interval divides the final code |
| ArithShortest.Shortest | jcarith.c:132-193 | no byte string shorter than the segment lies in the final interval, for any decisions |
| ArithEncoder.BinaryEncoder.ArithEncode | jcarith.c:218-311 | the register updates code the next announced decision, keeping every byte out or pending where the interval needs it; what becomes of the bin, `ArithEstimation.MpsCoded` and `LpsCoded` say |
| ArithEncoder.BinaryEncoder.FinishPass | jcarith.c:132-193 | the bytes written are the destination as it was, then the stuffed segment of all decisions, which `ArithShortest.Shortest` proves shortest; the bins are those after them |
| ArithDecoder.BinaryDecoder.ArithDecode | jdarith.c:105-182 | on any source, the loop with the floating cut point takes the step of the decoder on values, or fails when the source is empty |
| ArithCoder.DecodeBitKeepsBelow | jdarith.c:105-182 | C stays below A shifted by CT and below 2^23: INT32 suffices for the decoder's registers |
| ArithBinarisation.CategoryMeaning | jcarith.c:431-435 | the conditioning category is 0 exactly for differences of magnitude up to 2^(L-1) (0 for L = 0), otherwise large, by sign, exactly for magnitudes over 2^U, and small, by sign, in all other cases |
| ArithBinarisation.PatternDigits | jcarith.c:436-439 | the decisions of a bit pattern are the digits of the magnitude below its first one, from the top |
| ArithScan.LastPredicts | jcarith.c:717-731 | behind an MCU, a component's prediction is the DC value of its last block, with the category of its difference |
| ArithAreas.DcWithin | jcarith.c:713-763 | decisions of a DC difference use exactly the bins for its context, its sign and its magnitude category |
| ArithAreas.DcInArea | jcarith.c:50-64 | these are among the 49 bins of its own DC table, for every difference that the decoder can decode |
| ArithAreas.AcWithin | jcarith.c:490-545 | decisions of a band use three bins for each of its indices, the fixed bin, and for large magnitudes one set of bins up to index Kx and another above it |
| ArithAreas.AcInArea | jcarith.c:50-64 | these are among the 245 bins of its own AC table, and so are those of a refined band |
| ArithAreas.RefineWithin | jcarith.c:589-678 | a refined band uses the three bins of its indices, but no end-of-band decision up to the previous end, and the fixed bin |
| ArithAreas.AreasApart | jcarith.c:50-64 | the areas of different tables, and of DC and AC, have no bin in common |
| ArithMcuEncoder.CodeBand | jcarith.c:470-545 | codes exactly the decisions of the band, for any band, spectral limit and kx |
| ArithMcuEncoder.CodeRefinement | jcarith.c:606-678 | codes exactly the decisions of the refinement, with EOB decisions only behind the previous end |
| ArithMcuDecoder.DecodeDcDifference | jdarith.c:263-306 | undoes the encoder: the same difference and the same conditioning category, if and only if the magnitude is at most 32768; off the encoder's decisions it ends all the same |
| ArithMcuDecoder.DecodeBand | jdarith.c:340-390 | the coefficients of the band are those encoded, at the point transform; only the band is written |
| ArithMcuDecoder.AgreeSuffices | jdarith.c:459-466 | the decoder's index of the previous end of block, which may differ from the encoder's below the band, leads to the same decisions |
| ArithScanEncoder.ScanEncoder.EncodeMcu | jcarith.c:685-826 | keeps the invariant that all bytes so far and the MCUs to come make up the promised scan, restarts included |
| ArithScanEncoder.EncodeScan | jcarith.c:319-353 | for any MCUs, kind of scan and restart interval: the output is the old destination and the segments with numbered restart markers, statistics cleared between them |
| ArithRestarts.SegmentsApart | jcarith.c:319-353 | what follows a restart marker is coded as if the scan began there, whatever was coded before it |
| ArithScanDecoder.ScanDecoder.ProcessRestart | jdarith.c:189-237 | on course, finds the marker due and continues with cleared bins and predictions on the rest of the scan |
| ArithScanDecoder.ScanDecoder.DecodeMcu | jdarith.c:502-627 | on course, restores the next MCU exactly when its DC differences can be coded; it writes only the blocks of the MCU, at coefficients of the scan |
| ArithScanDecoder.DecodeScan | jdarith.c:189-627 | given the encoder's bytes, the scan is restored if all DC differences can be coded and is not if some cannot (DC places zero before); on any other bytes it ends and writes only coefficients of the scan |
| ArithScan.SmallScanCodable | jcarith.c:686-826 | scans whose transformed DC values lie within 2^14 can always be coded |
| HuffCode.FitsIffKraft | jchuff.c:203-221 | lengths pass the code generation check if and only if their Kraft sum leaves one codeword of the longest length free, so that no code is all ones |
| HuffCode.Apart | jchuff.c:203-221 | canonical codes are prefix-free: a later code, cut to an earlier length, is larger |
| HuffCode.MakeCDerivedTbl | jchuff.c:160-245 | accepts exactly the tables whose codes fit, whose symbols are in range and distinct; then every listed symbol has its canonical code and no other symbol has one |
| HuffCode.MakeDDerivedTbl | jdhuff.c:322-440 | accepts exactly the tables whose codes fit and whose symbols are in range; maxcode, valoffset and lookahead entries then agree with the canonical codes |
| HuffSymbols.LookDecides | jdhuff.c:398-425 | a lookahead entry names the unique code that begins the 8 bits, or there is none of at most 8 bits |
| HuffSymbols.SlowDecode | jdhuff.c:591-627 | from length 1 or 9 on, returns the symbol of the unique code that begins the bits and takes that code's bits, or 0 after 17 bits; it suspends only when the source runs dry |
| HuffSymbols.HuffDecode | jdhuff.c:168-188 | the fast path has the contract of the slow path |
| HuffmanBound.NoneCheaper | jchuff.c:1279-1327 | no lengths that satisfy Kraft's inequality on the used symbols cost less than the sum of the merged weights |
| HuffmanTree.HuffmanLengths | jchuff.c:1271-1327 | the merging of chains in codesize and others gives complete lengths of least cost; the last symbol's is the largest and equals its depth as computed from the weights |
| HuffmanDepth.DeepTotal | jchuff.c:1279-1327 | a symbol at depth d needs a total weight of at least the Fibonacci number F(d+2) |
| HuffmanDepth.ShortBelow | jchuff.c:1330-1339 | below a total of F(35) = 9227465 no depth exceeds 32 |
| HuffmanDepth.FibTooDeep | jchuff.c:1330-1339 | the bound is tight: Fibonacci weights with exactly that total put the pseudo-symbol at depth 33 |
| HuffmanLimit.MoveTwo | jchuff.c:1353-1361 | one step: two codes of the longest length go, one to the prefix, the other below the longest code that is at least two bits shorter; no other length changes |
| HuffmanLimit.LimitLengths | jchuff.c:1341-1363 | limiting from 32 to 16 bits is such steps until no longer code is left; it ends, keeps the number of symbols and a Kraft sum of 1, and changes nothing that was short already |
| HuffmanLimit.LimitUnfolds | jchuff.c:1352-1363 | the limited lengths are determined by the step: those of one step and limiting what it leaves |
| HuffmanLimit.ShorterKept | jchuff.c:1352-1363 | codes shorter than all those that a step takes keep their number |
| HuffmanLimit.EvenAtEnd | jchuff.c:1352-1363 | lengths that fill the code space have an even number of codes of the longest length, so removing two at a time never goes wrong |
| HuffmanLimit.DropPseudo | jchuff.c:1365-1368 | one code of the longest length is dropped, which leaves exactly that much of the code space free |
| OptimalTable.GenOptimalTable | jchuff.c:1255-1385 | a table if and only if the depth of the pseudo-symbol, computed from the counts, is at most 32 (always for a total below 9227465); its codes fit, it lists exactly the counted symbols, once each, by their lengths before limiting and then by value, the lengths are those of the limiting less one of the longest, and unless lengths were limited they are optimal |
| OptimalTable.FibonacciRefused | jchuff.c:1332-1338 | admissible counts, with a total of 9227465, that the procedure refuses |
| OptimalTable.OptimalAccepted | jchuff.c:189-245 | what the procedure returns is accepted by the derivation, with a code for a symbol if and only if it was counted |
| HuffEncoder.HuffEncoder.EmitBits | jchuff.c:305-379 | the bits join those before; whole bytes leave with stuffing; at most 7 bits stay; size 0 is refused |
| HuffEncoder.HuffEncoder.FlushBits | jchuff.c:385-404 | the bytes out are those of all bits, the last filled up with ones |
| HuffBits.PaddedWithOnes | jchuff.c:385-404 | nothing but ones, and fewer than eight, follows the last token of a segment |
| HuffBinarisation.ValueBits | jchuff.c:923-930 | a positive value is sent as it is, a negative one as its distance below the largest value of as many bits, so that the first bit is the sign |
| HuffScan.LastPredicts | jchuff.c:1036-1046 | behind an MCU, a component's prediction is the DC value of its last block |
| HuffReader.BitReader.Fill | jdhuff.c:464-562 | keeps the bits ahead, warns and adds zero bits, up to 25 in all, only when the data before a marker is used up, and fails only without a marker and with a source run dry |
| HuffReader.HeldFinds | jdmarker.c:910-952 | a marker search that suspends and resumes at its restart point finds what one search of all the bytes finds |
| HuffReader.DataOfStream | jdhuff.c:485-540 | stuffing is undone: the data bytes in front of a marker are those that were stuffed |
| HuffRuns.RunExtends | jchuff.c:458-482 | a pending run comes out as its final length, then all its correction bits in order, then what follows, although the encoder defers it over many MCUs; it ends only at a band with a symbol of its own, at the end of the segment, at length 0x7FFF or when the bits of another band might not fit |
| HuffViews.SeenView | jchuff.c:785-910 | the tokens that the refinement encoder emits with its counters and buffers are those the decoder asks for event by event |
| HuffMcuEncoder.EncodeRefine | jchuff.c:785-910 | emits exactly those tokens; correction bits never exceed their buffer, and without a run there are none |
| HuffMcuEncoder.EncodeAc | jchuff.c:951-1000 | emits the tokens of the band and fails exactly on a coefficient of more than 10 bits, given codes for its symbols |
| HuffMcuDecoder.DecodeAc | jdhuff.c:1216-1283 | undoes the encoder for any coefficient limit: the same bits are used and the coefficients below the limit restored; a suspended attempt can be repeated |
| HuffMcuDecoder.ReadFirst | jdhuff.c:786-835 | undoes the first AC scan, with the run of ended bands that it finds |
| HuffRefinement.ReadSymbols | jdhuff.c:936-1013 | the coefficients passed are refined, newly nonzero ones are listed, and on success the run and the place in the band agree with the encoder |
| HuffRefinement.Undo | jdhuff.c:1043-1049 | zeroing the listed positions leaves a block on which the next attempt ends as if it were the first |
| HuffRefinement.DecodeRefine | jdhuff.c:903-1050 | on the encoder's tokens a completed attempt leaves the refined block and the right run, a broken one a block from which any later attempt does; on other data it ends and writes only the band |
| HuffScanEncoder.RunScan | jchuff.c:489-1225 | output and statistics pass over any MCUs: what is counted is exactly what is written, symbol by symbol, with restarts; it succeeds if all DC differences have at most 11 bits, AC values at most 10 and symbols a code, and not if the values do not fit |
| HuffScan.FitAccepted | jchuff.c:941-978 | DC values of 11 signed bits and AC values of 10 bits are accepted in every scan |
| HuffScan.ScanCoveredCoded | jchuff.c:313-316 | if every counted symbol has a code, no code is missing in the output pass |
| HuffScanDecoder.ScanDecoder.ProcessRestart | jdhuff.c:635-675 | on course, drops the padding, finds the marker due, wherever the source suspends, and begins the next segment |
| HuffScanDecoder.ScanDecoder.ResyncToRestart | jdmarker.c:1237-1282 | off course, ends with the data or in front of one of the next two restart markers or of another marker |
| HuffScanDecoder.ScanDecoder.DecodeMcu | jdhuff.c:1186-1302 | for all five kinds of MCU: on course an attempt restores the MCU or runs dry and can be repeated; only the MCU's blocks are written, at coefficients of the scan |
| HuffCourse.PlanMcu | jdhuff.c:765-845 | what an AC scan's decoder meets next, as a run or as tokens, follows from the MCUs alone |
| HuffPasses.FinishGather | jchuff.c:1396-1442 | succeeds exactly when no needed table is too deep, and gives every needed table the best code for its counts, once per table |
| HuffPasses.StartOutput | jchuff.c:1450-1550 | succeeds exactly when every needed table is present and valid; derives exactly the tables that the scan uses |
| HuffStatistics.CountedProper | jchuff.c:1121-1225 | only symbols of tables that the scan needs are counted, all of them valid for their table |
| HuffStatistics.NeededCounted | jchuff.c:1396-1442 | in every table that the scan needs some symbol is counted |
| HuffTransmission.NeverMissing | jchuff.c:1111-1225 | tables made for the counts of a scan have a code for everything its output pass emits |
| HuffTransmission.SmallNeverGivesUp | jchuff.c:1330-1339 | scans with fewer than 9227465 symbols in each table are never refused for their depth |
| HuffTransmission.OptimizationPass | jchuff.c:1197-1442 | succeeds exactly when the coefficients are in range and no table is too deep, and the tables are then best for the scan |
| HuffTransmission.EncodeOptimized | jchuff.c:1016-1105 | both passes: the bytes are those of the scan under tables in which nothing is missing, under the same exact condition |
| HuffTransmission.DecodeScan | jdhuff.c:635-1302 | however its bytes are cut into pieces, the scan is restored; on any bytes decoding ends and writes only coefficients of the scan |
| HuffTransmission.Transmit | jchuff.c:1016-1442 | encoding with optimised tables and decoding from pieces restores the MCUs if and only if the coefficients are in range and no table is too deep; otherwise nothing is written |
| ScanScript.ValidateScript | jcmaster.c:357-488 | accepts exactly the scripts in which every scan may follow those before it, and tells whether the script is progressive |
| ScanScript.ReduceScript | jcmaster.c:492-522 | the in-place compaction leaves the scans that reach into the smaller block, in order and cut to it |
| ScanScript.ReducedOk | jcmaster.c:492-522 | a reduced progressive script is again valid and ends at the same precision for every coefficient that remains |
| ScanScript.AdoptScript | jcmaster.c:806-835 | what is coded is the reduced form of what was accepted, sequential scripts included |
| ScanScript.StartProgressiveScan | jdhuff.c:1316-1360 | rejects exactly the parameters out of range, warns exactly of scans out of order, and records the new precision |
| ScanScript.DecoderContent | jdarith.c:640-686 | no scan of an accepted script, reduced to any block size, is rejected or warned of by the decoder |
| SimpleProgression.SimpleProgression | jcparam.c:558-630 | the space figured beforehand is exactly what the recommended script fills |
| SimpleProgression.GenericScriptOk | jcparam.c:618-630 | for any number of components, the recommended script is valid, progressive and ends at full precision |
| SimpleProgression.ColorScriptOk | jcparam.c:598-617 | so is the script for YCbCr |
| Reconstruction.AcceptedStep | jcmaster.c:357-522 | every scan of an accepted script, once reduced, may follow the scans before it |
| Reconstruction.ScanTeaches | jdhuff.c:694-896 | a scan that is restored takes what is known of the picture one step further and spoils nothing |
| Reconstruction.FullPrecision | jcmaster.c:357-488 | a picture restored by a script that ends at Al = 0 everywhere is exact |
| Reconstruction.SimpleExact | jcparam.c:558-630 | the recommended scripts restore pictures exactly |
| Reconstruction.StartScan | jdhuff.c:1309-1400 | the decoder's checks at the start of any scan of an accepted script find nothing wrong |
| ArithReconstruction.TransmitScript | jcarith.c:361-826 | for every raw script: rejected exactly if it is invalid; otherwise encoding and decoding all its scans restores every coefficient to the last precision it was sent at, without error or warning |
| ArithReconstruction.DecodePicture | jdarith.c:241-627 | decoding the bytes of any valid sequence of scans leaves every coefficient at its last precision, and zero if never sent |
| ArithReconstruction.InRangeCodable | jdarith.c:279-288 | DC values within 2^14 make every scan one that the decoder restores |
| HuffReconstruction.TransmitScript | jchuff.c:540-910 | the same with tables optimised for every scan and a source in pieces; refused exactly if some scan has a coefficient out of range or too deep a table |
| HuffReconstruction.OrdinarySent | jchuff.c:941-978 | coefficients of 8-bit samples in scans of ordinary size are never refused |
| PassController.RunPasses | jcmaster.c:664-799 | with the frame header written once, before the first scan, every scan is output once and in order; statistics, if any, are gathered for exactly the scans that are not DC refinement, and for the first one unless transcoding, each directly before its output |
| PassController.OutputOnce | jcmaster.c:664-799 | every scan is output exactly once, in order |
| PassController.GatheredBefore | jcmaster.c:696-712 | with optimised tables every scan that is not DC refinement is output directly behind its own gathering pass, and no pass gathers for a later one |
| Coefficients.RefineOne | jdhuff.c:927-1010 | one more bit takes a value truncated toward zero from precision Al + 1 to Al |
| Coefficients.DcRefineOne | jdhuff.c:884-886 | one more bit takes a floored DC value from precision Al + 1 to Al, also for negative values |

## Left out

- ArithReconstruction.TransmitScript: asks for DC differences that the arithmetic decoder can decode (`ScanCodable`, implied by DC values within 2^14); what becomes of a scan with others is stated by `ArithScanDecoder.DecodeScan`, not for pictures.
- ArithReconstruction.DecodePicture: speaks of sources that hold what the encoder sends; on other bytes only `ArithScanDecoder.DecodeScan` promises something.
- ArithScanDecoder.DecodeScan: that an uncodable scan is not restored is stated for DC places that were zero, as they are in a new picture; a later scan could find the right value there already.
- OptimalTable.GenOptimalTable: asks for 1 to 254 counted symbols, so that the 8-bit counts of lengths cannot wrap, and a total of at most 10^9, the bound of the search loop; `HuffTransmission.RowCountable` derives the first from what a scan can count.
- HuffTransmission.Transmit: asks for at least one MCU, a block for every component and at most 10^9 symbols in a table, as a compressed picture has.
- HuffScanDecoder.ScanDecoder.ResyncToRestart: says where resynchronisation may leave a decoder that is off course, not how much of a damaged picture is recovered; the same holds for the arithmetic decoder.
- HuffMcuEncoder.EncodeRefine: holds the correction bits in a sequence; that they fit the buffer of 1000 entries is part of the contract.
- Coefficients are those of 8-bit samples: MAX_COEF_BITS is 10, and the builds with larger samples are not modelled.
- The extra entries of natural_order beyond 63, which protect the decoder from corrupt runs, are modelled as index 63; natural_order itself is any permutation that keeps index 0.
- Registers and counts are unbounded integers. For the decoder's registers `ArithCoder.DecodeBitKeepsBelow` and for the encoder's the invariant `Spaced` give the bounds that make 32 bits enough; only the low 24 bits of put_buffer and the low 32 bits of get_buffer are modelled, as in the code.
- Output suspension: the destination always takes a byte. Input suspension is modelled for the Huffman decoder; the arithmetic decoder cannot suspend and fails instead.
- The Huffman decoder's working copies of its state are modelled by setting the fields back when an attempt fails.
- The coefficient limit is given for each component; jdhuff.c computes it for each block of the MCU from the component's scaled size.
- The statistics bins live in one sequence with an area per table, as the tables of one scan; they are fresh for every scan, as start_pass leaves them.
- The counts of each table are copied before the optimal-table procedure, which destroys them.
- Tables reach the decoder as the encoder made them: the marker writer and reader (DHT, DQT, DAC, SOS) and their suppression of duplicates are not part of this model, nor are errors they would find.
- Which blocks a scan visits, dummy blocks at the edges included, is a parameter; it must cover every real block of its components once. The coefficient controllers that produce that order are not part of this model.
- A decoded picture starts at zero, and blocks that are not real (dummy blocks) carry no promise.
- The DCT, quantisation, sampling, colour conversion, merged upsampling and the row-buffer controllers of compression and decompression are not part of this model.
- Warnings are kept only where a property speaks of them: bad progressions, and data used up before a marker.
