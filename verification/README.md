# Verified model of the calling stack

This project models the parts of a WhatsApp calling client whose correctness cannot be seen in one function, and proves
what they promise together. `dafny verify dfyconfig.toml` checks all of it.

## What is modelled

**MLow entropy coding.** The range coder of RFC 6716 is a state machine on values (`RangeSpec`): encoder states, decoder
states and coding steps. `RangeProof`, `RawProof` and `RangeRoundTrip` prove that the decoder retraces the encoder from
every finished buffer, `RangeLaws` that all kinds of steps are cells of one partition, and `RangeTermination` on which cells the
encoder's loop ends. `RangeEncoder` and `RangeDecoder` are the
coder objects, field by field, with 32-bit arithmetic written out, each method equal to a step of the state machine; the
encoder also keeps the list of steps written so far.

Each syntax (pulses, line spectrum, gains, pitch) is described once, as the steps that stand for its parameters. Two lemmas
meet there: reading those steps yields the parameters, and whatever a stream holds, the decoder reads parameters whose
steps the stream carries. The encoder and the decoder, separate imperative code as in the repository, are each proved
against that description. `Frame` and `PacketCoder` put three internal frames together.

The table builders (`CmfTables`, `CcTables`, `PitchBuild`) are proved to give tables of the shape the coders need, for every
seed of the right size. `FixedPoint` holds the integer logarithms and exponentials behind the pulse tables, and the proof that
no probability divides by zero: eight straight lines under the fixed-point factorial do for every split. `FixedPointLaws` says what
those integers stand for: inverse curves, symmetry, conserved probability. In a table set built from a seed, the windows the coders
cut are tied back to the seed's own rows and to the probabilities (`CcTables.BuiltFrom` and the lemmas that use it). What
only the seed data can promise about contours (an injective numbering, numbers grouped by first block, block steps of -1 to 2)
is the predicate `PitchTables.Consistent`; `Witness` gives tables that meet everything.

**Signal code.** `CelpSearch`, `Autocorrelation` and `CelpLimit` (greedy codebook search, its tables, its pulse limits and the
survivor shares), `Fft` (mixed-radix transform) and `Filters` (unrolled recursive filters) work over real numbers; rounding is not modelled. Sine and cosine
enter the transform only as powers of a root of one.

**Media path.** `Srtp`, `Rtp` and `MediaPipeline` (rollover counters, packet headers, protect and unprotect, with the keystream
and the tag as parameters), `H264` and `VideoSender` (access units, gating, keyframes, the engine's video events), `Rtcp`
(reception statistics) and `Playout` (the RTP-timed buffer). `KnownAnswers` proves inputs whose results the repository's tests fix.

## Where the code does not do what one might expect

- The pulse limit of the redundant rate is compared with the index of the pulse, not with the count it would give, so that
  rate can end with one pulse more than its limit. `CelpLimit.FecLimitExact` says when the limit holds over all searches, and
  `CelpLimit.SearchOverLimit` runs one where it does not. Its first pulse is taken over from the main rate without being
  weighed (`CelpSearch.FecBest`).
- A redundant rate whose limit allows pulses still gets none out of a search of a single pulse (`CelpSearch.SettledExact`).
- The sigmoid of the run tables is not monotone: it falls by two between 159 and 160 (`FixedPointLaws.SigmoidDips`).
- The separate test for a first byte of 0A among the comfort noise codes adds nothing (`Rtp.DtxExact`).
- With fewer than two survivors in all, the shares are no longer positive (`CelpSearch.DistributeFcbSurv`).
- An offer that meets a known call writes the local video flag alone, so a repeated offer of the other kind during media
  leaves the sender running against the flag (`VideoSender.ManagedCall.Offer`, `VideoSender.OfferKeepsMirror`, `VideoSender.OfferParts`).
- A symbol whose cell is empty is not refused. Normalising then never ends, unless the cell starts the table and the total
  does not divide the range (`RangeTermination.EncodeEnds`, `TableEnds`); a fresh encoder hangs on the empty symbols of
  [0, 0, 2] and [0, 1, 1, 2] (`FirstCellStalls`, `MiddleCellStalls`) but not on that of [0, 0, 3] (`FirstCellEnds`).
- A unit larger than 4 MiB is fragmented but never reassembled (`H264.PackageAssembles`).
- The receiver's counter guess is wrong outside a window of half a cycle, and the window's closed end changes side with the
  highest number (`Srtp.GuessExact`).
- The factor found for a length of 0 is 2, and half of 0 is 0, so the recursion would call itself on the same length
  (`Fft.SmallestFactor`); `Fft.FftRec` starts at one sample.

## Model

| member | source | states |
|---|---|---|
| RangeRoundTrip.RangeRoundTrip | mlow/rangecoder.go:83-146 | Encode any steps, flush, and put any bytes behind: a decoder finds every step's cell again, with the same range and bit count as the encoder after each of them; carries through pending 0xFF bytes and the minimal-bits flush are covered (sections 4.1 and 5.1 of RFC 6716). |
| RangeRoundTrip.MixedRoundTrip | mlow/rangecoder.go:498-535 | Any interleaving of range-coded steps and raw bits decodes from the finished buffer when no write failed, and front bytes, the shared raw byte and back bytes never overlap. |
| RangeRoundTrip.DonePoints | mlow/rangecoder.go:498-535 | Every buffer that starts with the flushed bytes lies in the final interval, whatever follows. |
| RangeRoundTrip.FlushBlockFits | mlow/rangecoder.go:498-516 | The flush picks at most nine bits, aligned, whose whole block of continuations lies inside the final range. |
| FrontOnly.FrontIsAll | mlow/rangecoder.go:545-548 | Without raw bits nothing is written at the back, so the consumed length is the whole packet body. |
| RangeLaws.CellsTile | mlow/rangecoder.go:385-399 | The cells of one total lie side by side over the whole range, each as many whole quotients wide as it has frequencies, the first with the remainder on top. |
| RangeLaws.BitIsSym | mlow/rangecoder.go:402-415 | A bit of probability 2^-logp is a symbol of that total: the last one if set, all the others if not. |
| RangeLaws.IcdfIsSym | mlow/rangecoder.go:418-428 | A symbol of an inverse table is the cell between the complements of its two entries. |
| KnownAnswers.FirstSymbols | mlow/rangecoder_test.go:54-80 | Any stream that starts with the four bytes of the decoder's test script decodes to its first two symbols, 4 and 3. |
| CdfSpec.CdfReads | mlow/rangecoder.go:197-221 | A table symbol decodes to the one symbol whose step the stream carries, with the state just past it. |
| CdfSpec.UintReads | mlow/rangecoder.go:247-267 | A uniform integer of any size from 2 up to 32 bits reads back, and exactly its steps are consumed. |
| CdfSpec.IcdfCell | mlow/rangecoder.go:169-193 | The descending search over an inverse table stops in the cell the code value lies in and narrows to that cell. |
| CdfSpec.DecodeCdf | mlow/rangecoder.go:197-221 | On any state a usable table yields an in-range symbol and keeps the decoder's value below its range and the range above 2^23. |
| RangeEncoder.RangeEncoder.constructor | mlow/rangecoder.go:314-323 | A fresh encoder with an empty history. |
| RangeEncoder.RangeEncoder.WriteByte | mlow/rangecoder.go:331-339 | One byte at the front, or the error flag when front and back would meet. |
| RangeEncoder.RangeEncoder.WriteByteAtEnd | mlow/rangecoder.go:341-349 | One byte at the back, or the error flag. |
| RangeEncoder.RangeEncoder.CarryOut | mlow/rangecoder.go:351-372 | The carry rule: hold back 0xFF, otherwise release the held byte and the run behind it with the carry added. |
| RangeEncoder.RangeEncoder.Normalize | mlow/rangecoder.go:374-382 | Terminates with the range back above 2^23 and the pending bytes consistent. |
| RangeTermination.EncodeEnds | mlow/rangecoder.go:374-399 | For every cell fl <= fh <= ft <= 2^23, empty ones included, the normalising loop ends if and only if the cell has a width, or is the first and ft does not divide the range. |
| RangeTermination.TableEnds | mlow/rangecoder.go:431-445 | The same for a symbol of a table: exactly the non-empty cells end, and the empty ones at the table's start whose total leaves a remainder. |
| RangeTermination.FirstCellStalls | mlow/rangecoder.go:374-399 | On a fresh encoder the empty first symbol of [0, 0, 2] leaves a range of 0 after any number of steps. |
| RangeTermination.MiddleCellStalls | mlow/rangecoder.go:374-399 | So does the empty middle symbol of [0, 1, 1, 2]. |
| RangeTermination.FirstCellEnds | mlow/rangecoder.go:374-399 | On the empty first symbol of [0, 0, 3] the loop ends. |
| RangeTermination.EnteredIsEncode | mlow/rangecoder.go:385-399 | On a cell with a width the termination results speak of the very state the round trip encodes from. |
| RangeEncoder.RangeEncoder.Encode | mlow/rangecoder.go:385-399 | Narrows to the symbol's cell; a zero total only raises the error. While no write failed the object's state is the run of all steps written. |
| RangeEncoder.RangeEncoder.BitLogp | mlow/rangecoder.go:402-415 | Narrows to one of the two cells of a bit with probability 2^-logp, and the history grows by that step. |
| RangeEncoder.RangeEncoder.EncodeICDF | mlow/rangecoder.go:418-428 | Narrows to the cell of symbol s of an inverse table. |
| RangeEncoder.RangeEncoder.EncodeCDF | mlow/rangecoder.go:431-445 | Codes a symbol with a cell; a degenerate table or a symbol outside the table is refused with the error flag and writes nothing. |
| RangeEncoder.RangeEncoder.BitsN | mlow/rangecoder.go:448-467 | Raw bits join the 32-bit window at the back, whole bytes leaving it when it would overflow. |
| RangeEncoder.RangeEncoder.EncodeUint | mlow/rangecoder.go:470-482 | The high part goes through the range coder, the low part to the back; the history grows by exactly those steps. |
| RangeEncoder.RangeEncoder.EncodeRawSymbol | mlow/rangecoder.go:485-488 | A symbol of nbits equally likely values through the range coder. |
| RangeEncoder.RangeEncoder.Done | mlow/rangecoder.go:498-535 | Afterwards, if and only if no write failed, the buffer is the finished one of the steps written. |
| RangeDecoder.RangeDecoder.constructor | mlow/rangecoder.go:50-62 | A decoder over any bytes starts with its value below its range. |
| RangeDecoder.RangeDecoder.Normalize | mlow/rangecoder.go:83-93 | Restores the range above 2^23 and at most 2^31, value below range, reading zeros past the end. |
| RangeDecoder.RangeDecoder.Decode | mlow/rangecoder.go:97-112 | The frequency under the code value, and the error flag for a zero total. |
| RangeDecoder.RangeDecoder.Update | mlow/rangecoder.go:136-146 | Consumes the cell and normalises; the invariant on value and range holds again. |
| RangeDecoder.RangeDecoder.BitLogp | mlow/rangecoder.go:149-166 | One bit, decided by which of the two cells holds the code value. |
| RangeDecoder.RangeDecoder.DecodeICDF | mlow/rangecoder.go:169-193 | The symbol of an inverse table; an empty table is the error path. |
| RangeDecoder.RangeDecoder.DecodeCDF | mlow/rangecoder.go:197-221 | The symbol the code value points at, on every table with a cell; degenerate tables are the error path. |
| RangeDecoder.RangeDecoder.DecodeRawSymbol | mlow/rangecoder.go:114-133 | Shifting instead of dividing finds the same symbol as the uniform decode. |
| RangeDecoder.RangeDecoder.BitsN | mlow/rangecoder.go:224-244 | The next n bits of the tail, refilled byte by byte from the end. |
| RangeDecoder.RangeDecoder.DecodeUint | mlow/rangecoder.go:247-267 | A value below the bound on every stream, clamped with the error flag where the stream exceeds it. |
| RangeDecoder.RangeDecoder.Decode64FineSym | mlow/rangecoder.go:270-287 | The count down from 63 with its clamp is the uniform decode of 64 cells. |
| CmfTables.CmfOfShape | mlow/cc_tables.go:115-129 | An expanded distribution starts at 0, strictly increases and stays within 32767. |
| CmfTables.SymbolWidth | mlow/celp_enc.go:249-265 | Each symbol of an expanded table is one wide plus its share of what is left over, by the square of its packed byte plus one, capped at 65535. |
| CmfTables.CelpDcmfToCmf | mlow/celp_enc.go:250-266 | The in-place 16-bit expansion yields the shared table with no 32-bit overflow and leaves the rest of the array alone. |
| CmfTables.LsfDcmfToCmf | mlow/lsf_seed.go:328-349 | The 64-bit version yields the same table. |
| CmfTables.PitchDcmfToCmf | mlow/pitch_seed.go:149-170 | The one-pass version yields the same table. |
| CmfTables.PdfToCmf | mlow/cc_tables.go:115-129 | The integer version, and its agreement with the shared expansion of the same weights. |
| CmfTables.WindowInside | mlow/cc_tables.go:513-521 | A window inside a table is a slice of it, and every symbol of a window of two or more entries has a cell. |
| CcTables.Build | mlow/cc_tables.go:380-411 | From any seed of the right size, and with no assumption on the computed probabilities, every table the four-subframe coders use has its promised shape and holds what it should: each expanded from the seed field of its own name, row by row, the split tables from the splits of 1 to 159 pulses, the run tables from the runs of 1 to 40 pulses over 8 to 160 samples. |
| CcTables.CreateSplitCmfs | mlow/cc_tables.go:158-174 | One strictly increasing table per pulse total, as long as the admissible splits, from the fixed-point probabilities. |
| CcTables.CreateRunlenTable | mlow/cc_tables.go:181-218 | Forty strictly increasing tables of maxSamples + 1 entries, from the corrected run distributions. |
| FixedPoint.SplitExponentPositive | mlow/cc_tables.go:137-156 | For every split of 1 to 159 pulses into halves of at most 80 the fixed-point logarithm of its share is not positive, so the divisor of the probability is never zero. |
| FixedPoint.LikelyPositive | mlow/cc_tables.go:148-174 | Every pulse total has a split with a non-zero probability, so the normalising sum is positive. |
| FixedPoint.Log2lin | mlow/cc_tables.go:73-90 | The fixed-point exponential stays inside 32 bits, is positive on non-negative arguments and at most 2^30 up to exponent 30. |
| FixedPoint.Lin2logIs | mlow/cc_tables.go:59-71 | Leading-zero count, rotation and parabola give the octave-by-octave logarithm of every number below 256. |
| FixedPointLaws.LogOfExp | mlow/cc_tables.go:67-90 | From octave 7 on the logarithm takes the exponential back to within three 128ths below and one above. |
| FixedPointLaws.LogOfPower | mlow/cc_tables.go:67-71 | The logarithm of 2^e is 128 e for every e below 32. |
| FixedPointLaws.ExpOfWhole | mlow/cc_tables.go:73-90 | The exponential of 128 e is 2^e for every e up to 30. |
| FixedPointLaws.ExpRises | mlow/cc_tables.go:73-90 | The exponential never falls, over all integers. |
| FixedPointLaws.SigmoidTurns | mlow/cc_tables.go:92-110 | The sigmoid is 16384 at 0 and turns over there to within one unit. |
| FixedPointLaws.SigmoidUpper | mlow/cc_tables.go:92-110 | Above 0 it stays at or above its middle, never falls by more than two, and is 32767 from 192 on. |
| FixedPointLaws.FactorialStep | mlow/cc_tables.go:137-146 | From each number of pulses to the next the logarithm of the factorial grows by the logarithm of the factor, to within 38000 of 32768ths. |
| FixedPointLaws.SplitTurns | mlow/cc_tables.go:148-156 | k out of n pulses are as probable as n - k. |
| FixedPointLaws.OnePulseSplits | mlow/cc_tables.go:148-156 | One pulse falls into either half with a probability of exactly one half. |
| FixedPoint.RunPdfPositive | mlow/cc_tables.go:181-213 | Every run weight is non-negative and fits 32 bits, and the first is not zero. |
| FixedPoint.ComputeRunPdf | mlow/cc_tables.go:186-213 | The builder's loops compute the specified run distribution. |
| FixedPointLaws.RunsConserve | mlow/cc_tables.go:181-218 | Probability is conserved: the weights of the first n run lengths and what is left for longer ones add up to 2^31 less at most n. |
| FixedPointLaws.MissByPulse | mlow/cc_tables.go:189-197 | One pulse misses the next of the samples left with all but one part in their number, and each further pulse multiplies by that. |
| FixedPointLaws.HitCorrects | mlow/cc_tables.go:194-211 | The chance of a hit is one less the chance to miss raised to a power between 26000 and 36000 of 32768, in the fixed-point logarithm. |
| FixedPointLaws.DensityTurns | mlow/cc_tables.go:198-203 | Density changes its sign when pulses and samples change places. |
| FixedPointLaws.DensityByOctave | mlow/cc_tables.go:198-203 | Density is 128 for each doubling of pulses over samples. |
| CcTables.RunWindowShape | mlow/cc_tables.go:221-238 | The run window for any samples and pulses left is in bounds, strictly increasing and has one cell per possible run. |
| CcTables.SplitWindowShape | mlow/cc_tables.go:498-521 | Every split window that reaches over the admissible halves is in bounds and strictly increasing. |
| CcTables.FcbgOffset | mlow/cc_tables.go:443-446 | The residual window at any offset up to 85 is in bounds and strictly increasing. |
| CcTables.FcbgainVDelta | mlow/cc_tables.go:470-473 | The filter-delta window from any previous filter is in bounds and strictly increasing. |
| CcTables.AcbgainRow | mlow/cc_tables.go:448-451 | Every gain row, the one for no predecessor included, is in bounds and strictly increasing. |
| CcTables.GainRowOfSeed | mlow/cc_tables.go:392-394 | In built tables the gain row after a gain is that row of the seed, expanded. |
| CcTables.RunsOfSeed | mlow/cc_tables.go:407-409 | Runs over the samples left are read from the last entries of the table for the next multiple of eight. |
| CcTables.SplitsOfSeed | mlow/cc_tables.go:158-173 | A split window is that slice of the table of its pulse count. |
| CcTables.FilterStep | mlow/cc_tables.go:380-411 | After a filter, the next one's width depends only on the step between the two. |
| CcTables.GainReconEntry | mlow/cc_tables.go:475-482 | Entry i of the reconstruction table stands at its base plus 2 i, with zeros at odd addresses and past its end. |
| PulseSpec.TriExact | mlow/pulse.go:58-69 | The wrapped 32-bit prior of the pulse count is an exact line less a triangle for 0 to 160 pulses. |
| PulseSpec.TriRises | mlow/pulse.go:58-69 | The prior strictly increases from 321 to 13521. |
| PulseVector.PulsesRoundTrip | mlow/analysis.go:528-608 | For every signed vector of 320 samples with at most 40 pulses in each subframe: build, encode, decode gives back exactly that vector and its parameters. |
| PulseVector.BuildExpands | mlow/analysis.go:528-608 | Every such vector is encodable and its parameters stand for it. |
| PulseVector.CountsAreNorms | mlow/pulse.go:105-177 | In every decoded vector each subframe's magnitudes add up to its count, and the counts to the total. |
| PulseVector.PulsesTotal | mlow/pulse.go:34-227 | On arbitrary bytes: counts of 0 to 40 that sum to the decoded total and equal the subframe norms. |
| PulseVector.UnpackSigns | mlow/pulse.go:146-168 | Fifteen-bit sign batches hold the signs they were packed from. |
| PulseVector.OnesArePositive | mlow/pulse.go:146-168 | A set sign bit is a positive pulse: with every bit set no sample of the expanded vector is negative. |
| PulseProof.ParamsRead | mlow/pulse.go:34-178 | Count, split, runs and signs read back as written, whatever follows them. |
| PulseProof.ParamsParsed | mlow/encoder.go:360-446 | Every stream decodes to parameters the encoder would have written with the very same steps. |
| PulseProof.SplitRead | mlow/pulse.go:180-250 | The binary split recovers the four counts. |
| PulseSpec.WalkAllSound | mlow/pulse.go:105-145 | Positions stay inside their subframe and rise, whatever the runs. |
| PulseSpec.HalfCell | mlow/pulse.go:231-250 | In built tables the first of two subframes is coded with a width that its share of their count has by the split probability. |
| PulseSpec.SumCell | mlow/pulse.go:191-210 | The same for the first two subframes of four. |
| PulseSpec.BatchSpells | mlow/pulse.go:146-168 | A sign batch is the number its signs spell, a positive one setting its bit, the first in the most significant place. |
| PulseCoder.EncodeSmplPulses | mlow/encoder.go:360-446 | The encoder writes exactly the steps of the specification. |
| PulseCoder.EncodeSplit3537 | mlow/encoder.go:449-465 | The half split writes one windowed symbol, or nothing when it is forced. |
| PulseCoder.DecodeCount | mlow/pulse.go:53-88 | The search over the triangular prior is the table decode. |
| PulseCoder.DecodePulseSubframeCounts | mlow/pulse.go:180-227 | The four counts of the specification; the guards against corrupt splits cannot fire for totals up to 160. |
| PulseCoder.SmplSplit3537 | mlow/pulse.go:231-250 | The half split of the specification. |
| PulseCoder.TurnBatch | mlow/pulse.go:146-168 | A batch turns exactly the magnitudes whose sign bit is clear and leaves the others. |
| PulseCoder.DecodeSmplPulses | mlow/pulse.go:34-178 | The decoder's loops compute the specified parameters and scatter the specified vector. |
| PulseCoder.BuildPulseParams | mlow/analysis.go:528-608 | The builder's loop computes the specified parameters. |
| Lsf.LsfRead | mlow/lsf.go:93-155 | Selector, grid, sixteen coefficients and the extra symbol read back as written. |
| Lsf.GridOfCodebook | mlow/lsf_seed.go:583-589 | The grid symbol is read from the distribution of its own stage-1 codebook, the conditional one on a match. |
| Lsf.LsfParsed | mlow/lsf.go:93-155 | Every stream decodes to indices the encoder would have written with the same steps. |
| Lsf.FirstFrameForgets | mlow/lsf.go:57-71 | The first internal frame wipes out the predictor state of earlier packets. |
| Lsf.MatchesRepeat | mlow/lsf.go:45-66 | In a packet an internal frame matches exactly if it repeats the stage-1 symbol of the one before; only then do pitch and gain predictors stay. |
| Lsf.HeadRow | mlow/lsf.go:93-155 | The stage-1 symbol is read from row 0 in the first internal frame and from row 1 plus the symbol before in the others. |
| Lsf.EncodeSmplLsf | mlow/encoder.go:311-355 | The encoder writes the specified steps and advances the predictor. |
| Lsf.DecodeSmplLsf | mlow/lsf.go:93-155 | The decoder reads the specified indices and advances the predictor. |
| Gains.GainsRead | mlow/gains.go:18-68 | Gains and residuals read back as written: both sides pick the same residual window. |
| Gains.EntryIsLevel | mlow/gains.go:34-64 | The residual table is entered at 85 less the subframe's level, rounded to whole steps and kept within 0 to 85; the level is the main index times its step plus sixteen times the reconstruction entry. |
| Gains.ResidualsFromSeed | mlow/gains.go:50-66 | In tables built from a seed, a residual is read from the seed row of its class of pulse counts, from that entry on. |
| Gains.GainsParsed | mlow/gains.go:18-68 | Every stream decodes to gains the encoder would have written with the same steps. |
| Gains.SubframeGains | mlow/gains.go:34-44 | The four log gains, in 32-bit arithmetic that cannot overflow for any index. |
| Gains.EncodeSmplGains | mlow/encoder.go:469-511 | The encoder writes the specified steps. |
| Gains.DecodeSmplGains | mlow/gains.go:18-68 | The decoder reads the specified indices and computes the specified gains. |
| PitchTables.FindsOwn | mlow/pitch.go:108-118 | With an injective map, searching for a contour's own number finds that contour. |
| PitchTables.Onto | mlow/pitch.go:108-121 | Every lag symbol names a contour, so the search never falls through. |
| PitchTables.FoundIn | mlow/mem.go:131-139 | Disjoint regions: an address inside one region is read from that one. |
| PitchTables.ZeroOutside | mlow/mem.go:151-158 | Outside every region a table entry reads as 0. |
| PitchTables.SliceAt | mlow/mem.go:182-189 | A table read through the address window is the slice that sits there. |
| PitchTables.RecordAt | mlow/mem.go:54-113 | Every field of every contour record reads back through its address. |
| PitchTables.MapAt | mlow/mem.go:142-148 | The contour map reads back through its address. |
| PitchTables.FracCdfAt | mlow/mem.go:182-189 | The 65-entry step window at any place inside the 320-entry table reads back through its address. |
| PitchBuild.BuildBoth | mlow/mem.go:54-113 | Logical tables and address window built from one seed describe the same tables. |
| PitchBuild.SegsShape | mlow/pitch_seed.go:107-117 | Whatever the contour bitstream holds, what comes off it has one to six segments of one to four blocks. |
| PitchBuild.ContoursFromSeed | mlow/pitch_seed.go:107-117 | Contours coded on the bitstream pair by pair come off it as they went in. |
| PitchBuild.TablesFromSeed | mlow/pitch_seed.go:194-255 | The maps of a seed come out as they are, and each distribution expanded, row by row, under its own name. |
| Pitch.DeltaWindow | mlow/pitch.go:176-183 | For a block step of -1 to 2 the step window stays inside its table and strictly increases. |
| Pitch.LagStep | mlow/pitch.go:176-183 | Seen from the lag before, the width of a lag depends only on the step between them. |
| Pitch.NearReaches | mlow/pitch.go:120-131 | The blocks counted as near are exactly those whose steps the table holds from every lag of the block before. |
| Pitch.ModeByTotal | mlow/pitch.go:60-79 | The step table by the sum of the four gains' codebook entries, the second of each twice, against 40028 and 56340. |
| Pitch.FiltIsLast | mlow/pitch.go:66-76 | The filter predictor is the filter of the last subframe that had pulses, if any had. |
| Pitch.PitchRead | mlow/pitch.go:33-202 | Gains, filters, contour and all eight block lags survive the wire. |
| Pitch.PitchParsed | mlow/pitch.go:33-202 | Every stream decodes to pitch parameters the encoder would have written with the same steps. |
| Pitch.TrackRead | mlow/pitch.go:123-201 | The lags of every contour read back, with or without a predicted first lag. |
| Pitch.AfterReady | mlow/pitch.go:337-342 | The predictors left behind are ones the next voiced frame can start from. |
| PitchCoder.EncodeLagsWire | mlow/pitch.go:284-333 | The encoder's table reads write the specified contour and lag steps. |
| PitchCoder.LagsPredictorAfter | mlow/pitch.go:337-342 | The predictor handed on is the last block and last lag, and for every fitting row that lag lies in that block. |
| PitchCoder.EncodeSmplPitch | mlow/encoder.go:516-567 | The encoder writes the specified steps and leaves the specified predictors. |
| PitchCoder.DecodeSmplPitch | mlow/pitch.go:33-202 | The decoder, reading only through the address window, computes the same parameters and leaves the same predictors. |
| PitchCoder.SearchContour | mlow/pitch.go:108-118 | The scan of the map through the window is the specified search. |
| PitchCoder.DecodeLagTrack | mlow/pitch.go:123-201 | Block lags, subframe lags and predictors of the specified track. |
| Frame.PacketRoundTrip | mlow/encoder.go:571-605 | For all valid parameters of three internal frames, decoding the packet from any predictor state and with anything behind it recovers every index without error. |
| Frame.FramesParsed | mlow/decoder.go:170-216 | On arbitrary bytes the decoder reads three internal frames the encoder could have sent with exactly those steps. |
| Frame.FramesForget | mlow/lsf.go:57-71 | A packet's validity, steps and final state do not depend on earlier packets. |
| Frame.InternalRead | mlow/decoder.go:188-216 | One internal frame reads back as written. |
| PacketCoder.EncodeSmplFrame | mlow/encoder.go:571-605 | TOC byte and exactly the specified body, or an error when it does not fit. |
| PacketCoder.DecodeActiveFrame | mlow/decoder.go:170-216 | The entropy reads of the three-frame loop and the state carried on, on any body. |
| CelpSearch.SameSums | mlow/celp_enc.go:610-707 | Pulse by pulse or as a vector: same correlation, same response, same quadratic form. |
| CelpSearch.TablesMove | mlow/celp_enc.go:650-671 | How one more pulse moves a candidate's correlation and energy. |
| CelpSearch.AddPulse | mlow/celp_enc.go:650-671 | After each pulse both running tables hold, for every candidate, the closed-form correlation and energy of the pulses so far with it. |
| CelpSearch.NonZeroRange | mlow/celp_enc.go:473-484 | Exactly the positions whose response can reach the pulse. |
| CelpSearch.BestCandidate | mlow/celp_enc.go:672-674 | The candidate capturing most energy together with the pulses so far. |
| CelpSearch.FcbSearch | mlow/celp_enc.go:610-707 | Every pulse is the best single addition; each rate's gain and energy are those of its own pulses; its pulse count is the one the threshold rule picks. |
| CelpSearch.MainBest | mlow/celp_enc.go:461-469 | The main rate stops where captured energy less the price of its pulses is greatest, at the fewest pulses. |
| CelpSearch.FecBest | mlow/celp_enc.go:681-688 | The redundant rate stops at the best of its first maxFec + 1 pulses, the first one free and unweighed. |
| CelpLimit.FecLimitExact | mlow/celp_enc.go:676-688 | Over all searches (every target, response and positive prices) the redundant rate keeps its pulse limit exactly when the limit is 0 or at least the number of pulses searched. |
| CelpLimit.SearchOverLimit | mlow/celp_enc.go:610-707 | A search run on a flat target of any length with a one-sample response and any price in (0, 0.9) gives the redundant rate exactly one pulse more than its limit. |
| CelpLimit.BestIsFresh | mlow/celp_enc.go:650-674 | On such a target the greedy rule never repeats a position. |
| CelpSearch.FecKeepsLimit | mlow/celp_enc.go:681-688 | With no limit or one that the search cannot reach, the redundant rate keeps it. |
| CelpSearch.SettledExact | mlow/celp_enc.go:690-706 | The final check on the thresholds changes nothing for the main rate, and takes the redundant rate's pulse only after a search of one pulse. |
| CelpSearch.FcbSynthesize | mlow/celp_enc.go:1086-1096 | The vector rebuilt from the coded pulses is the one the search stood for. |
| CelpSearch.CodesTell | mlow/celp_enc.go:692-699 | A pulse code is never 0, its size less one is the position and its sign the pulse's. |
| CelpSearch.FiguresOfVector | mlow/celp_enc.go:690-706 | Gain and energy returned are c.d / (c'Phi c) and c'Phi c of the rebuilt vector, up to the 1e-16 guard. |
| Autocorrelation.AutocorrelationNonNegative | mlow/celp_enc.go:1276-1293 | The matrix comes from an impulse response: the quadratic form is the energy of a response, so never negative. |
| Autocorrelation.ComputePhi | mlow/celp_enc.go:1267-1284 | Reversing, filtering by the response itself and reversing back yields the autocorrelation, zero behind the response. |
| Autocorrelation.FiltMa | mlow/celp_enc.go:215-235 | Tap by tap over all samples, with or without a leading one, is the plain convolution sum. |
| Autocorrelation.FlipPhi | mlow/celp_enc.go:1286-1293 | The two-sided layout holds the matrix entry for every pair of positions. |
| Autocorrelation.SearchWithResponse | mlow/celp_enc.go:1259-1293 | From any impulse response of up to 33 samples, a single 1 aside, to the greedy pulses, their energies and both rates, with nothing assumed about the tables. |
| CelpSearch.DistributeFcbSurv | mlow/celp_enc.go:1505-1535 | Every survivor count is 1 to 4 if and only if there is at most one pulse or totSurv is at least 2; then the last is 1 and the sum is max(maxPulses, min(totSurv, 4 (maxPulses - 1) + 1)). The counts before the last never fall and differ by at most one. |
| Fft.SmallestFactor | mlow/fft.go:24-37 | A prime divisor of n with no smaller one for n >= 2; 1 for 1, and 2 for 0, whose half is no smaller. |
| Fft.Regroup | mlow/fft.go:57-76 | The direct sum, regrouped by residue classes of the index. |
| Fft.ResidueIsDft | mlow/fft.go:57-76 | Each residue class is a smaller transform times a twiddle. |
| Fft.FftRec | mlow/fft.go:41-76 | Terminates for every n >= 1 and stride, writes the direct sums of x[j stride] w^(jk), and touches nothing else. |
| Fft.Cfft | mlow/fft.go:80-83 | The transform of a whole input is the direct sum. |
| Fft.TurnsCancel | mlow/fft.go:39-40 | For a root of exact order n the powers of every other turn add up to zero. |
| Fft.InverseTransform | mlow/fft.go:39-40 | The inverse of a root of exact order n can drive the same recursion, and forward then backward gives back n times the input. |
| Filters.PfFiltAR2 | mlow/postfilter.go:101-139 | The 4-wide unrolled filter equals the second order recurrence, for every length and state. |
| Filters.PfFiltAR1 | mlow/postfilter.go:142-170 | The 5-wide unrolled leaky integrator equals the recurrence. |
| Filters.SmplPfFir3 | mlow/postfilter.go:71-98 | Three taps over the carried history, and the history carried on, for lengths 0 and 1 too. |
| Filters.PfFiltMA1 | mlow/postfilter.go:173-182 | Pre-emphasis over the carried sample. |
| Filters.SmplFiltArma2 | mlow/postfilter.go:198-209 | The cascade of both recurrences with its four states. |
| Filters.PePitchHpFilter | mlow/pitch_enc.go:54-83 | The in-place high pass equals a difference followed by the recurrence, from zero state. |
| Filters.Ar2Four | mlow/postfilter.go:101-129 | The eight tap values make four outputs in closed form what the recurrence yields. |
| Filters.Ar2Concat | mlow/postfilter.go:101-139 | Two chunks with carried state are filtered as one. |
| Filters.Ar1Concat | mlow/postfilter.go:142-170 | The same for the leaky integrator. |
| Filters.Ma1Concat | mlow/postfilter.go:173-182 | The same for pre-emphasis. |
| Filters.Fir3Concat | mlow/postfilter.go:71-98 | The same for the three taps. |
| Filters.Arma2Concat | mlow/postfilter.go:198-209 | The same for the cascade, with the same final state. |
| Filters.EmphasisUndone | mlow/postfilter.go:260-295 | Pre-emphasis undoes the leaky integrator of the same coefficient, as the post-filter brackets its comb. |
| Filters.Arma2Equation | mlow/postfilter.go:198-209 | Both stages of the second order filter together meet its difference equation in input and output samples. |
| Srtp.IvDistinct | srtp/e2e.go:132-151 | All 2^48 packet indices of one stream give different vectors. |
| Srtp.BuildE2eRtpIV | srtp/e2e.go:132-151 | Salt, SSRC and 48-bit index end up in their bytes. |
| Srtp.ZeroSaltIv | srtp/e2e.go:132-151 | With a salt of zeros the vector spells out SSRC, counter and sequence number in network order between four zeros and two. |
| Srtp.SaltMasks | srtp/e2e.go:132-151 | Any other salt turns over exactly the bits it has set. |
| KnownAnswers.Vector | srtp/e2e_test.go:90-100 | The vector of one packet under one salt, byte for byte. |
| Srtp.CryptTwice | srtp/e2e.go:154-167 | Encryption undoes itself under the same index, for any keystream. |
| Srtp.CryptBits | srtp/e2e.go:154-167 | A protected byte differs from the clear one in exactly the bits the keystream has set. |
| Srtp.ZeroKeystream | srtp/e2e.go:154-167 | Under a keystream of zeros the payload goes out as it is. |
| Srtp.AdvanceNext | srtp/e2e.go:226-241 | Over consecutive sequence numbers the send counter is the true rollover count. |
| Srtp.GuessExact | srtp/e2e.go:253-286 | For all 48-bit indices the receiver's guess is the sender's counter if and only if the index lies in the half-cycle window around the highest seen, taken round the ends of the space (section 3.3.1 of RFC 3711). |
| Srtp.GuessKeepsUp | srtp/e2e.go:253-286 | After any packet of the window the receiver stands at the highest index so far. |
| Srtp.RecvRocTracker.GuessRoc | srtp/e2e.go:253-286 | The guess, and the update of counter and highest number in all three cases. |
| Srtp.RocTracker.Advance | srtp/e2e.go:226-241 | The counter grows by one, modulo 2^32, exactly when the number falls by more than 2^15. |
| Rtp.HeaderRoundTrip | rtp/rtp.go:289-348 | Every header reads back, video extension included, and the payload starts where the length says. |
| Rtp.VideoParses | rtp/rtp.go:124-144 | Encoded video elements, padding included, parse to the extension they came from. |
| Rtp.ParseWhatsappVideoExtension | rtp/rtp.go:226-280 | The offset loop is the element grammar, wrong lengths refused. |
| Rtp.RtpStream.NextPacket | rtp/rtp.go:461-482 | The header of the packet's place in the stream. |
| Rtp.StreamWire | rtp/rtp.go:444-482 | Packet k carries number k + 1 and time k times the step, the marker only as the first speech packet, and takes twenty bytes ending in the comfort noise word if it is comfort noise, sixteen otherwise. |
| Rtp.DtxExact | rtp/rtp.go:55-74 | Exactly which payloads count as comfort noise; the separate test for 0A adds none, and no priming frame is one. |
| Rtp.SpeechExact | rtp/rtp.go:55-85 | Speech is everything that is neither comfort noise nor one of the two priming frames. |
| Rtp.HeaderAgrees | rtp/rtp.go:170-224 | The two readings of a header agree: the extension ends where the header does, and without the extension bit there is none. |
| KnownAnswers.SpeechHeader | rtp/rtp_test.go:63-77 | The sixteen bytes of the first speech packet. |
| KnownAnswers.ComfortNoiseHeader | rtp/rtp_test.go:63-77 | The twenty bytes of a comfort noise packet. |
| KnownAnswers.VideoHeader | rtp/rtp_test.go:88-110 | The 28 bytes of a video packet with its extension. |
| Rtp.VideoRtpStream.NextPacket | rtp/rtp.go:395-428 | Numbers rise by one modulo 2^16; timestamp and frame number move only after the last packet of a unit. |
| MediaPipeline.UnprotectWire | session.go:262-290 | With counters agreeing, unprotecting gives back header and payload. |
| MediaPipeline.Agreement | session.go:262-290 | Whatever is lost, repeated or reordered inside the window, every delivered packet decrypts to what was sent. |
| MediaPipeline.AgreementFromStart | session.go:207-290 | The same from a fresh receiver whose first delivered packet is one of the first 65535. |
| MediaPipeline.FirstGuessExact | srtp/e2e.go:253-262 | For every 48-bit index a fresh receiver reads the first packet under the right counter if and only if its index is below 65536. |
| MediaPipeline.WithinHalf | srtp/e2e.go:253-286 | Strictly within 2^15 of the highest delivered is inside the window. |
| MediaPipeline.MediaPipeline.ProtectAudio | session.go:209-227 | Packet number k of the stream, protected under index k + 1, and the counters moved. |
| MediaPipeline.MediaPipeline.ProtectRTP | session.go:234-248 | The wire form under the caller's numbering; consecutive numbers keep the counter true. |
| MediaPipeline.MediaPipeline.UnprotectAudio | session.go:262-290 | Too short, unparsable or empty packets are refused before the counter moves; others decrypt under the guess. |
| MediaPipeline.MediaPipeline.RekeyRecv | session.go:168-178 | New keys and a receive counter that has seen nothing. |
| H264.SplitAnnexB | rtp/h264.go:114-141 | The scan yields the specified units. |
| H264.UnitsTidy | rtp/h264.go:114-156 | No unit contains a start code, and none but the last ends in a zero. |
| H264.SplitOfAnnexed | rtp/h264.go:114-156 | Splitting a stream made of tidy units gives those units back. |
| H264.PackageH264NALU | rtp/h264.go:29-74 | The payloads of the specification: whole up to the limit, fragments beyond. |
| H264.WireForm | rtp/h264.go:29-76 | Payload k of a fragmented unit carries its bytes from 798 k on, behind type 28 and a byte with the unit's type, 128 on the first and 64 on the last, and no payload exceeds 800 bytes. |
| H264.WholeUnits | rtp/h264.go:29-76 | Exactly the units of 1 to 800 bytes go out whole. |
| H264.StartNeverEnds | rtp/h264.go:45-74 | Only the first fragment has the start bit, and no fragment has both bits (section 5.8 of RFC 6184). |
| H264.PackageAssembles | rtp/h264.go:169-242 | From any state a packaged unit reassembles to itself if and only if it is at most 4 MiB. |
| H264.AccessUnitRoundTrip | rtp/h264.go:114-242 | Split, drop delimiters, pack, fragment, reassemble from any state, split again: the sender's units less type 9. |
| H264.H264Depacketizer.Depacketize | rtp/h264.go:169-242 | The fragment buffer and flag follow the specified step on any payload, malformed ones included. |
| H264.PackageH264STAPA | rtp/h264.go:78-110 | The aggregate with the highest reference priority, or nothing outside its conditions. |
| H264.AggregateRoundTrip | rtp/h264.go:78-110 | An aggregate gives its units back. |
| H264.TopNriIs | rtp/h264.go:78-112 | The importance of an aggregate is the greatest of its units. |
| VideoSender.AccessUnitDelivered | engine_media.go:668-674 | The receiver hands over one access unit per marker, holding the sender's units. |
| VideoSender.SendsSafely | engine_media.go:887-971 | Over any run: nothing is packetised while inactive or gated, and every unit without a keyframe has an earlier one with no disable, un-gate or request since. |
| VideoSender.SendsExactly | engine_media.go:887-971 | Exactly what goes out over any run: non-empty access units, while the last switch left the sender on and not gated, that hold a keyframe or follow one with nothing since that demands another. |
| VideoSender.RecoversFirst | engine_media.go:950-971 | From any state: after enabling an inactive sender, lifting the gate of a gated one, disabling or a keyframe request, a keyframe goes out before any unit without one. |
| VideoSender.IdrUnits | rtp/h264.go:18-27 | A stream holds a keyframe if and only if one of its units starts with a byte whose five low bits say 5. |
| VideoSender.VideoSender.ProtectAccessUnit | engine_media.go:887-948 | One packet per payload or none, the headers to the last field: consecutive numbers and transport numbers, one timestamp, the frame number on the first and the marker on the last; stream, statistics and true rollover counters move with them, and a sent keyframe settles the requirement. A stride of 0 leaves the one before. |
| VideoSender.VideoSender.EnableSender | engine_media.go:950-957 | Starting or un-gating makes a keyframe necessary. |
| VideoSender.VideoSender.DisableSender | engine_media.go:959-965 | Stops, un-gates and makes a keyframe necessary. |
| VideoSender.VideoSender.Request | engine_media.go:967-971 | Makes a keyframe necessary. |
| VideoSender.VideoReceiver.Receive | engine_media.go:668-674 | Units join the access unit; a marker hands it over. |
| VideoSender.ManagedCall.StartMedia | engine_media.go:418-424 | The new sender takes over the call's flags, its stream and stride as given, and needs a keyframe. |
| VideoSender.ManagedCall.StopMedia | engine_media.go:427-436 | The call lets go of its sender and keeps its flags consistent. |
| VideoSender.ManagedCall.Offer | engine.go:480-489 | An offer sets both directions and neither gate nor sender; flags and sender agree afterwards if and only if a lowered gate implies video and a live sender is not switched. |
| VideoSender.ManagedCall.TransitionVideo | engine.go:209-279 | Gate implies local video, the live sender mirrors both flags and has passed exactly the events of the transition, and a failed announcement turns video off again. |
| VideoSender.ManagedCall.SetVideoEnabled | engine.go:281-322 | The same for switching, which always lifts the gate. |
| VideoSender.ManagedCall.OnVideoStanza | engine.go:889-974 | The same for every inbound state; the gate is lifted with a keyframe request exactly when it was down, and other states change nothing. |
| Rtcp.ExtendedIsHighest | rtp/rtcp.go:103-148 | While every packet is within 2^15 of the maximum, the extended sequence number is the true highest and expected reaches up to it (Appendix A.1 of RFC 3550). |
| Rtcp.LossIsMissing | rtp/rtcp.go:163-212 | Without duplicates, expected less received counts exactly the missing packets (Appendix A.3). |
| Rtcp.ReportTells | rtp/rtcp.go:163-212 | A report after such a run carries the true highest index and the number of missing packets, as far as 24 bits go. |
| Rtcp.DelayExact | rtp/rtcp.go:190-201 | The delay is the time since the last sender report in 65536ths of a second, rounded down and capped; 0 without one. |
| Rtcp.IntervalsTelescope | rtp/rtcp.go:163-212 | What all reports counted adds up to the totals at the last report. |
| Rtcp.JitterBounded | rtp/rtcp.go:130-147 | Reported jitter never exceeds the largest transit difference seen (Appendix A.8). |
| Rtcp.Estimator | rtp/rtcp.go:130-144 | The new estimate is fifteen sixteenths of the old plus one difference, within half a sixteenth, and is never clamped (Appendix A.8). |
| Rtcp.JitterOfTransits | rtp/rtcp.go:103-148 | Over any run of one source, the estimate is the fold of the differences of neighbouring transit times, reports or not. |
| Rtcp.JitterSettles | rtp/rtcp.go:130-144 | With every difference w the estimate settles within 8 of 16 w in no more steps than it was away. |
| Rtcp.JitterNeverFalls | rtp/rtcp.go:130-144 | Differences of at least w never let an estimate below 16 w fall, nor one above come below it. |
| Rtcp.JitterReported | rtp/rtcp.go:130-144 | After 16 w + 1 packets whose transit times differ by at least w from one to the next, the reported jitter is at least w - 1. |
| Rtcp.LatenessIsDistance | rtp/rtcp.go:130-138 | Two packets whose arrivals lie as far apart as their timestamps plus some lateness differ in transit by that lateness, across any wrap. |
| Rtcp.FractionIsShare | rtp/rtcp.go:174-182 | The fraction lost is the share of the interval's expected packets in 256ths, rounded down and capped at 255; 0 when none is missing. |
| Rtcp.NewerExact | rtp/rtcp.go:103-130 | The 16-bit comparison is right for every placeable index, and so is the cycle count. |
| Rtcp.RtcpReceptionStats.Observe | rtp/rtcp.go:103-148 | The new counters, a change of source included. |
| Rtcp.RtcpReceptionStats.ReportNow | rtp/rtcp.go:163-212 | The report of section 6.4.1 and the start of the next interval. |
| Playout.InOrder | audio_playout.go:27-103 | Frames reach a never-failing sink in push order, none twice, and none is lost: of the pushes since the last restart each is written, buffered, pending, or one of the oldest cut while more than 32000 samples were held. |
| Playout.PlaysPending | audio_playout.go:33-43 | A push while playing with a sink writes exactly the pending frame, cut or filled with silence to its ticks. |
| Playout.StartsOnTime | audio_playout.go:50-70 | Playback starts with the first push that finds a sink and 1920 samples, and never with less. |
| Playout.NeverTooMuch | audio_playout.go:50-55 | No more than 32000 samples are ever held. |
| Playout.ClockExact | audio_playout.go:27-71 | Written plus buffered samples equal the RTP ticks since the last restart if and only if every push since kept its ticks: no gap longer than the frame or a packet, and nothing cut. |
| Playout.NeverAhead | audio_playout.go:27-87 | The buffered count is exact, and written plus buffered samples never exceed the RTP ticks since the last reset. |
| Playout.ClockIsTime | audio_playout.go:27-45 | Over pushes at true ticks the accepted ticks are the true time since the push that last started the clock, across any number of wraps. |
| Playout.DeltaIsTicks | audio_playout.go:27-45 | The 32-bit difference is the true tick count across a wrap. |
| Playout.AudioPlayoutBuffer.Push | audio_playout.go:27-71 | The next state, whether playback starts, and the frames written. |
| Playout.AudioPlayoutBuffer.Flush | audio_playout.go:73-80 | The pending frame goes out only once playback has started. |
| Playout.AudioPlayoutBuffer.Reset | audio_playout.go:82-87 | Only the given frame is pending afterwards. |
| Playout.AlignAudioFrame | audio_playout.go:89-103 | The result has min(samples, max(own length, 960)) samples: the frame's own, then silence. |

## Left out

- Decoding of the two-subframe (config 1) operating point, which the encoder does not implement.
- Float side of the codec: LPC analysis, pitch estimation, perceptual weighting, synthesis, voicing, rate control.
- Bit-exact float rounding in the search, transform and filters: real numbers instead.
- Seed blobs and their decompression: any seed of the right size.
- AES, HMAC and key derivation: the keystream and the tag are parameters, and the tag is not verified on receipt, as in the code.
- Piggybacked WARP extension values: carried in the audio header, not decoded.
- Network, relays, data channels, logging, diagnostics and recorders.
- Interleaving inside one engine event: every event and every method is one atomic step.
- The delayed-decision beam search and pitch sharpening: only the greedy branch and the survivor shares.
- RED containers, redundancy splitting, TOC parsing beyond the configuration bit.
- Sender reports and their parsing, keyframe requests in RTCP.
- CdfSpec.IcdfCell: tables that do not increase and end in 0; on others the search still stops at the last entry, but the value need no longer lie below the range.
- RangeEncoder.RangeEncoder.Encode: steps with fl < fh <= ft <= 2^23; empty cells have no interval to decode, and the loop ends only on those that `RangeTermination.EncodeEnds` names.
- RangeEncoder.RangeEncoder.BitLogp: logp from 1 to 23, so that both cells have a width.
- RangeEncoder.RangeEncoder.EncodeICDF: tables that do not increase and symbols with a cell of their own.
- RangeEncoder.RangeEncoder.EncodeCDF: an empty cell of a usable table is outside the contract; the code does not refuse it, and `RangeTermination.TableEnds` says when it comes back.
- RangeEncoder.RangeEncoder.BitsN: at most 25 bits of a value that has no more, what the 32-bit window holds.
- RangeEncoder.RangeEncoder.EncodeRawSymbol: at most 23 bits, what the range resolves.
- RangeDecoder.RangeDecoder.Update: the cell the code value lies in, as every caller in the codec passes it.
- RangeDecoder.RangeDecoder.BitLogp: logp from 1 to 23.
- RangeDecoder.RangeDecoder.DecodeICDF: tables that do not increase and end in 0; the bit counters of both coders are unbounded integers.
- RangeDecoder.RangeDecoder.DecodeCDF: tables that never decrease, or degenerate ones.
- RangeDecoder.RangeDecoder.DecodeRawSymbol: at most 23 bits.
- RangeDecoder.RangeDecoder.BitsN: at most 25 bits at once.
- CmfTables.PdfToCmf: non-negative weights, which is all the builders produce.
- PulseCoder.DecodeSmplPulses: the four-subframe operating point only.
- Gains.DecodeSmplGains: the four-subframe operating point only.
- PitchCoder.DecodeLagTrack: the per-segment lag list of the result is not part of this model.
- PacketCoder.DecodeActiveFrame: entropy reads and predictor state, without synthesis.
- Autocorrelation.ComputePhi: responses other than a single tap of 1, on which the code reads a second one that is not there.
- Fft.FftRec: sines and cosines are powers of a root of one, so their rounding is not modelled.
- Rtp.RtpStream.NextPacket: the piggybacked extension values are not modelled.
- Playout.AudioPlayoutBuffer.Push: a sink that returns an error is not modelled.
- PulseCoder.DecodePulseSubframeCounts: the branches for corrupt splits are left out because they cannot be reached for totals up to 160.
- Frame.PacketRoundTrip: states the range-coded body; synthesis from the indices is not part of this model.
- Playout.InOrder: the sink never fails.
- PitchCoder.DecodeSmplPitch: the per-segment lag list of the result is not part of this model, and neither are the branches for a malformed interval or an unknown contour, which consistent tables never reach.
