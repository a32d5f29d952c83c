# A model of the FFV1 codec mffv1

mffv1 encodes pictures as FFV1 version 3 (RFC 9043) and decodes them.  The codec is lossless, so
what matters about it is that its two halves are exact inverses, although they are written
differently, keep state between frames and run slices in parallel.  This project models both halves
in Dafny and proves what they are to each other, from binary decisions up to whole sessions.

The layers, each with a specification, the methods that implement it as the source does, and the
lemmas that join the two halves:

* the adaptive range coder (`range_*.dfy`): an encoder that propagates carries through a byte
  vector, a decoder with registers and implicit zeros, context banks and scopes; the specification
  is a nested interval on integers;
* Golomb-Rice codes, adaptive contexts and run mode (`golomb_*.dfy`, `bits.dfy`);
* prediction, context derivation, differences and the reversible colour transform
  (`sample_model.dfy`, `color_transform.dfy`), rows and slice contents in both entropy modes;
* quantization tables and the configuration record (`quant_table*.dfy`, `configuration*.dfy`), and
  that the default transition table never lets the coder fail (`steady_coding.dfy`, `codable_*.dfy`);
* slice framing and parity (`slice_framing.dfy`, `crc.dfy`), the raster sweep and the geometry of
  slices (`slice_raster.dfy`, `slice_coverage.dfy`, `slice_geometry.dfy`, `slice_writes.dfy`);
* what coders that know nothing of each other have to agree on: which state, context, bit or byte
  stands for what, stated place by place and not by the functions of the other layers
  (`*_layout.dfy`, `decision_shares.dfy`, `golomb_aging.dfy`, `run_pieces.dfy`, `prediction.dfy`,
  `row_history.dfy`, `color_meaning.dfy`, `frame_laws.dfy`, `coding_start.dfy`);
* slices, frames, the encoder and the decoder (`slice_*.dfy`, `frame_*.dfy`, `encoder_profile.dfy`,
  `reference_states.dfy`), and the two together (`session.dfy`).

The end of the chain is `Sessions.DecoderFollows`: whatever calls of an encoder succeeded and failed,
a decoder that is given the configuration record, the dimensions and the frames returns exactly the
samples and holds exactly the encoder's per-slice states, if and only if every slice survives.  The
first two findings below are the two ways in which a slice does not.

## Findings

Three of the laws a lossless codec stands for do not hold for all inputs.  For each the project has the input, and
the condition under which the law holds, proved in both directions.

1. **A picture can come back as another one.**  For Golomb-Rice streams with an extra plane and more
   than one slice the decoder first reads the content of a slice from one byte before its boundary
   (`src/codec/slice_executor.cpp:59-97`), with bytes left at the end tolerated, and keeps the result
   if no error turns up.  `MisreadFrame.MisreadFrameExists`: of a two-sample frame with an extra
   plane, all black, the decoder returns a sample of 253, and reports success.  A slice arrives as it was
   coded if and only if reading it early fails or comes to the same samples and states
   (`SliceCodec.OutcomeExactly`); streams without an extra plane, or of one slice, always do
   (`FrameCodec.GolombRunSurvives`).  The notes in `plans/test-vector-compatibility-notes.md:457-461`
   say that the parsed boundary is tried first; the model follows the code.
2. **A slice can be refused by the codec that wrote it.**  The frame parser reads a slice's header
   together with the footer (`src/codec/frame_parser.cpp:431-460`), the slice decoder without it, and insists
   on the same position (`src/codec/slice_decoder.cpp:1355-1373`).  Closing a range payload drops its
   last byte (`src/entropy/range_encoder.cpp:457-491`), and when the content added no byte to the
   header, that byte was the header's.  `TinyFrame.RefusedFrameExists`: a grey frame of two samples in
   two slices, the right sample black.  The slice is accepted if and only if the encoder's byte count
   after the header does not exceed the length of the closed payload (`RangeSliceCodec.RangeSliceDecodes`).
3. **A configuration record can be refused by the codec that wrote it.**  The writer accepts table
   sets with any number of contexts, the parser at most 32768
   (`src/mffv1/configuration_parser.cpp:299-340`); the exact condition is in
   `ConfigurationRecord.RecordReadsBack`.  That the writer narrows the count to 32 bits hides nothing,
   since 32-bit entries cannot describe so many contexts.  `WideTables.WideRecordRefused`: two tables
   of 255 steps and one of three, 97538 contexts.  Streams of the encoder's own profile have one context
   and are not affected.

Also, a grid of more than 2^32 - 1 cells is accepted by the profile but refused when located
(`FrameCodec.TooManySlices`).

## Model

| member | source | states |
|---|---|---|
| RangeScript.RunReadsBack | src/entropy/range_coder.cpp:407-530 | For every transition table, every start contexts and every accepted run of flags, numbers, sentinels, reconfigurations and nested scopes, reading any payload inside the final interval returns the written values, ends in the encoder's contexts and, as far as the payload reaches, at its byte position. |
| RangeScript.WriteAllKeepsSound | src/entropy/range_encoder.cpp:250-280 | Over every run the width stays between 256 and 0xff00 and low + width stays below 0xff00 at the first two bytes, so no carry ever leaves the first byte. |
| RangeScript.WriteAllNests | src/entropy/range_encoder.cpp:250-280 | A payload inside the final interval lies inside the interval after every prefix of the run. |
| RangeScript.HeaderBoundary | src/codec/frame_parser.cpp:27-35 | After a header closed by plain finalization and followed by any bytes, the decoder's low is zero and the content boundary it computes is exactly the header's length. |
| RangeScript.WriteAllShort | src/entropy/range_encoder.cpp:338-435 | A run of n operations adds at most 127 n bytes. |
| RangeSymbols.ScalarFollows | src/entropy/range_coder.cpp:440-511 | Reading a signed or unsigned number from any payload inside the interval undoes its binary decisions, for every table and states. |
| RangeSymbols.SymbolLength | src/entropy/range_encoder.cpp:356-395 | No symbol takes more than 127 decisions. |
| RangeContexts.BuildWellFormed | src/entropy/range_encoder.cpp:63-132 | Accepted banks are laid out without gaps or overlaps, so every existing context has one place of its own. |
| RangeContexts.BuildOfSplit | src/entropy/range_encoder.cpp:155-171 | Contexts copied out bank by bank and set up again are the same contexts. |
| RangeEncoding.RangeEncoder.AddToLow | src/entropy/range_encoder.cpp:509-525 | The in-place carry loop adds exactly the value to the big-endian low and never fails inside a sound interval. |
| RangeEncoding.RangeEncoder.WriteRac | src/entropy/range_encoder.cpp:250-280 | One decision on bytes and width is one narrowing of the interval; it fails only on an empty part. |
| RangeEncoding.RangeEncoder.WriteSymbol | src/entropy/range_encoder.cpp:338-435 | A symbol is written whole or not at all: success is the specified encoding, whose decisions stand in the states `SymbolLayout.SymbolPlaced` says; failure leaves states, width and bytes unchanged. |
| RangeEncoding.RangeEncoder.Finalize | src/entropy/range_encoder.cpp:437-440 | Plain finalization hands out low itself, which lies in the interval. |
| RangeEncoding.RangeEncoder.ClosingDelta | src/entropy/range_encoder.cpp:462-479 | The delta stays below the width, makes the last byte zero, and is the nearest such one to the middle. |
| RangeEncoding.RangeEncoder.FinalizeClosed | src/entropy/range_encoder.cpp:442-491 | The closed bytes stay inside the interval when zeros follow them, and are one byte shorter than low, but at least two. |
| RangeDecoding.RangeCoder.ReadRac | src/entropy/range_coder.cpp:407-438 | The 32-bit registers never wrap, and one call is one decision of the specification, refill included. |
| RangeDecoding.RangeCoder.ReadSymbol | src/entropy/range_coder.cpp:440-511 | The unary, mantissa and sign loops read the specified symbol, on every payload, errors included; `SymbolLayout.ScalarConsults` says which states that consults. |
| StateTransition.NextSteady | src/mffv1/state_transition.hpp:10-44 | Under the default table no decision leads from the band 8..248 out of it. |
| SteadyCoding.AllInsideWrite | src/entropy/range_encoder.cpp:395-412 | From such states no number in an existing context ever meets an empty interval, so every script of them is written. |
| SteadyCoding.EntryZeroUnused | src/mffv1/state_transition.hpp:29-44 | Entry 0 of the transition table has no influence on anything that can be written. |
| GolombRice.CodeReadsBack | src/entropy/golomb_rice_writer.cpp:34-69 | Every regular or escape code reads back at its position, to its exact length, whatever surrounds it. |
| GolombRice.KExists | src/entropy/golomb_rice_context.cpp:32-46 | A context fed with w-bit values, w up to 31, never reaches the limit of k. |
| GolombRice.SymbolsWrite | src/entropy/golomb_rice_context.cpp:139-170 | Every sequence of values can be written from every adapted context; the escape field is never too small. |
| GolombRice.SymbolsReadBack | src/entropy/golomb_rice_context.cpp:85-120 | Writer and reader contexts stay equal over any sequence, and every value returns modulo 2^w. |
| GolombRice.InterruptionReadsBack | src/entropy/golomb_rice_context.cpp:122-186 | The shifted coding of the difference that ends a run returns it exactly. |
| GolombRice.TakeSymbolKeepsBounds | src/entropy/golomb_rice_context.cpp:58-76 | On arbitrary bits count, drift, bias and error sum keep their bounds, so the reader's arithmetic cannot overflow 64 bits. |
| GolombCoding.WriteSymbol | src/entropy/golomb_rice_context.cpp:139-170 | A symbol is appended whole and its context adapted, or nothing changes; what is appended and how the context ages is `GolombLayout.SymbolPlaced`. |
| GolombCoding.ReadSymbol | src/entropy/golomb_rice_context.cpp:85-120 | On arbitrary bits the reader takes the specified symbol and adapts, or reports the specified error; what it takes is `GolombLayout.SymbolTaken`. |
| GolombRun.RunReadsBack | src/entropy/golomb_rice_run.cpp:95-150 | Reading segment after segment covers exactly the written run, uses exactly its bits, ends with the same run index and nothing pending. |
| GolombRun.SegmentProgress | src/entropy/golomb_rice_run.cpp:30-93 | On any bits a segment moves on or ends the run, stays in the row and keeps the index in its table. |
| GolombRun.WriteRun | src/entropy/golomb_rice_run.cpp:95-150 | The loop appends the run code that `RunPieces.RunPlaced` describes; on failure the run state is unchanged. |
| SampleModel.SampleRestored | src/mffv1/predictor.cpp:35-62 | Whether a difference arrives exactly or modulo 2^bits, inverted or not, the sample is restored. |
| SampleModel.WrapIsSignExtension | src/util/rfc_math.cpp:30-47 | Wrapping a difference with truncating remainders is sign extension of its low bits. |
| SampleModel.ComputeContext | src/mffv1/context_model.cpp:29-60 | The accumulating loop derives the specified context, sign inversion and range error included. |
| ColorTransform.PixelRestored | src/mffv1/color_transform.cpp:9-82 | The inverse reversible transform restores every pixel of 1 to 16 bits, with either treatment of an extra plane; what the coefficients are is `ColorMeaning.ForwardMeans`. |
| ColorTransform.CoefficientsRestored | src/mffv1/color_transform.cpp:48-82 | Coefficients are those of a pixel if and only if undoing them without cutting stays inside the sample range. |
| ColorTransform.RowsRestored | src/codec/slice_encoder.cpp:420-617 | Three rows of samples survive the transform, and their coefficients fit one more bit. |
| SliceSchedule.ScheduleOrdered | src/codec/slice_encoder.cpp:619-881 | Plane-by-plane and row-interleaved order both code every row of every plane exactly once, top to bottom. |
| SliceSchedule.ImageRestored | src/codec/slice_decoder.cpp:613-702 | Undoing the transform of a whole window gives the window. |
| GolombLine.RowReadsBack | src/codec/slice_decoder.cpp:258-534 | The reader, learning of runs segment by segment, restores the row a writer coded by scanning ahead: same samples, bits, contexts and run index, no pending run. |
| GolombLine.RowKeepsSound | src/codec/slice_decoder.cpp:258-534 | On arbitrary bits reading a row terminates, and on success every sample is in range and every state within its bounds. |
| GolombLineCoding.EncodeRow | src/codec/slice_encoder.cpp:678-777 | The nested loops over runs, interruptions and scalars append exactly the bits of the row, as `RowHistory.TurnPlaced` lays them out, and leave its adaptive state. |
| GolombLineDecoding.DecodeRow | src/codec/slice_decoder.cpp:258-534 | The loops over segments and left-over runs read the specified row in place of what the line held, errors included; predictions are those of `Prediction.PredictionContinues`. |
| GolombContent.ContentReadsBack | src/codec/slice_decoder.cpp:704-840 | Decoding the byte-aligned content of a slice gives the image, uses every byte, and leaves the encoder's contexts and run states. |
| GolombContent.ContentCodes | src/codec/slice_encoder.cpp:619-881 | With tables that cover every neighbourhood and rows below 2^24 samples, every image can be coded: no k limit, escape field or run is out of reach. |
| GolombSliceCoding.EncodeContent | src/codec/slice_encoder.cpp:619-881 | The encoder's loops produce exactly that content and state, and fail exactly when it does not exist. |
| GolombSliceDecoding.DecodeSlice | src/codec/slice_decoder.cpp:704-840 | The decoder's loops, line buffers swapped in place, compute the specified decoding of any bytes, with and without tolerance for trailing ones. |
| RangeLine.RangeRowReadsBack | src/codec/slice_decoder.cpp:171-215 | A row written as symbols, among any other operations, is read back as the same row. |
| RangeSlice.RangeContentReadsBack | src/codec/slice_decoder.cpp:1460-1559 | A window written as symbols among any other operations of the range coder is read back as the same window, for all tables, formats, signed 16-bit prediction and the colour transform. |
| RangeSliceCoding.EncodeRangeSamples | src/codec/slice_encoder.cpp:420-617 | The encoder's loops write exactly the specified symbols, those of `RowHistory.ContentComesFromPlanes`, and fail exactly when these cannot be written or a sample is too large. |
| RangeSliceDecoding.DecodeRangeSamples | src/codec/slice_decoder.cpp:1460-1559 | The decoder's loops read the specified window from any payload, errors included; predictions and contexts are those of `Prediction`. |
| QuantTables.SetReadsBack | src/mffv1/configuration_parser.cpp:299-383 | A written table set is parsed as itself if it has at most 32768 contexts, and refused otherwise. |
| QuantTables.ParsedSet | src/codec/configuration_record_writer.cpp:60-151 | Whatever table set the parser accepts, from any bytes, the writer accepts as well, and its scales never overflow. |
| QuantTables.FoldedBound | src/mffv1/context_model.cpp:29-60 | The balanced mixed-radix sum of the five table entries stays below the number of contexts. |
| QuantTables.ContextsCovered | src/mffv1/context_model.cpp:29-60 | So context derivation never fails with an encodable table set, for any neighbourhood. |
| CodableContent.ParsedCovers | src/mffv1/configuration_parser.cpp:299-383 | Nor with a parsed one. |
| QuantTableCoding.WriteTableSet | src/codec/configuration_record_writer.cpp:111-151 | Five tables in scopes of their own are written as specified; the count is narrowed to 32 bits before it is compared. |
| QuantTableCoding.ReadTableSet | src/mffv1/configuration_parser.cpp:299-383 | The filling loops parse the specified tables and count from any payload. |
| ConfigurationRoundTrip.ParametersReadBack | src/mffv1/configuration_parser.cpp:50-297 | Written parameters are parsed as the same stream up to normalization, or refused if a table set has more than 32768 contexts. |
| ConfigurationRecord.RecordReadsBack | src/codec/configuration_record_parser.cpp:13-63 | The same for whole records, through version probe, parity check and stripping. |
| ConfigurationRecord.ParametersWrite | src/codec/configuration_record_writer.cpp:235-345 | Once profile and tables are accepted nothing can make the writer fail. |
| ConfigurationRecord.RecordBurstDetected | src/codec/configuration_record_parser.cpp:13-63 | Any change of at most four consecutive bytes of a record is noticed, unless the record then claims a version without parity. |
| ConfigurationWriting.WriteRecord | src/codec/configuration_record_writer.cpp:203-233 | The writer makes a record exactly when profile and tables allow it, and it is the specified one. |
| ConfigurationParsing.ReadRecord | src/codec/configuration_record_parser.cpp:13-63 | The parser's stages compute the specified stream from any bytes, or fail when it does. |
| Crc.ParityVanishes | src/codec/slice_footer_writer.cpp:43-50 | Appending the remainder of data of any length makes the whole divisible. |
| Crc.BurstDetected | src/util/crc32.cpp:14-28 | A change of at most four consecutive bytes keeps data divisible if and only if it changes nothing. |
| SliceFraming.AppendFooter | src/codec/slice_footer_writer.cpp:11-54 | Size, status and parity are appended as specified, and the three refusals are as specified. |
| SliceFraming.LocatedBack | src/codec/slice_payload_locator.cpp:126-188 | Locating slices backward from the end of any joined list returns exactly those slices, in order. |
| SliceFraming.LocatedTile | src/codec/slice_payload_locator.cpp:24-85 | Whatever bytes are located, the slices tile the frame without gaps, are no more than allowed, and every checked one is divisible. |
| SliceFraming.SliceBurstDetected | src/codec/slice_footer_parser.cpp:69-110 | No change of at most four consecutive bytes of a slice with parity goes unnoticed. |
| SliceFraming.LocateAll | src/codec/slice_payload_locator.cpp:140-188 | The shrinking walk and the in-place reversal compute the specified slices, or the specified error, for any bytes. |
| SliceRaster.NeighboursSuffice | src/codec/slice_raster_validator.cpp:97-114 | Looking at the two neighbours in the ordered map finds every active interval in the way. |
| SliceRaster.SweepExact | src/codec/slice_raster_validator.cpp:87-114 | From every reachable point the sweep gets through if and only if no two rectangles overlap. |
| SliceCoverage.ValidatedExactly | src/codec/slice_raster_validator.cpp:36-121 | The validator accepts a list of slices if and only if every cell lies in exactly one of them, none leaves the raster, and none is larger than a quarter where that is required. |
| SliceCoverage.ValidateCoverage | src/codec/slice_raster_validator.cpp:36-121 | The event loop over the ordered map returns that verdict, with the specified error. |
| SliceGeometry.PlaneTiled | src/mffv1/stream_parameters.hpp:124-167 | An exact tiling of the raster tiles every plane exactly, subsampled ones included. |
| SliceGeometry.NoCellEmpty | src/codec/encoder_profile.cpp:94-108 | No cell is empty exactly when the plane has at least as many samples as the grid has cells, in either direction. |
| SliceLayouts.CellsHaveSamples | src/codec/slice_output_window.cpp:52-90 | Then every slice of whole cells has a row and a column in every plane. |
| SliceWrites.OrderIrrelevant | src/codec/slice_executor.cpp:399-449 | Any two interleavings of the stores of slices that tile the raster leave the same frame. |
| SliceHeader.HeaderReadsBack | src/codec/slice_header_parser.cpp:23-121 | A written header describes the same slice when read and applied to the raster. |
| RangeSliceCodec.RangeSliceDecodes | src/codec/slice_decoder.cpp:1316-1377 | A closed range slice is described correctly by the frame parser, and decoded to its samples and final contexts if and only if closing did not cut into the header; otherwise it is refused. |
| RangeSliceCodec.ContextsResume | src/codec/slice_encoder.cpp:349-418 | The slice at the same place of the next frame starts from exactly the contexts this one ended with. |
| GolombSliceCodec.GolombSliceDecodes | src/codec/slice_executor.cpp:41-97 | The boundary of a Golomb-Rice slice is found exactly; the slice decodes to its samples and states, unless the stream prefers reading from one byte earlier and that succeeds. |
| SliceCodec.SliceDecodes | src/codec/slice_executor.cpp:451-518 | Every coded slice, with its footer, is described as it was coded and decoded to one stated outcome. |
| SliceCodec.OutcomeExactly | src/codec/slice_executor.cpp:59-97 | The outcome is what was coded if and only if the header fits the payload (range) or reading early fails or agrees (Golomb-Rice). |
| SliceCodec.FooterHarmless | src/codec/frame_parser.cpp:431-460 | That the frame parser reads the footer along never spoils the description: it is not reached, or it begins with a zero. |
| SliceCoding.EncodeRangeSlice | src/codec/slice_encoder.cpp:234-418 | The encoder produces the specified slice exactly when description and samples can be written. |
| SliceCoding.EncodeGolombSlice | src/codec/slice_encoder.cpp:306-343 | The same in Golomb-Rice mode. |
| SliceReading.DecodeGolombBytes | src/codec/slice_executor.cpp:79-97 | Trying candidate after candidate from the same state returns the first success or the first error. |
| SliceReading.DecodeRangeBytes | src/codec/slice_decoder.cpp:1316-1400 | Reading the description again and the samples behind it computes the specified decoding of any payload. |
| CodableSlice.RangeSliceCodes | src/codec/slice_encoder.cpp:234-418 | Under the default transition table every picture is coded in range mode, from whatever an earlier frame left, and the next frame can follow. |
| CodableSlot.PictureCodes | src/codec/slice_encoder.cpp:115-207 | The same in either mode, for rows below 2^24 samples in Golomb-Rice mode. |
| ReferenceStates.ContinuedExactly | src/codec/slice_executor.cpp:279-321 | A frame that is no keyframe is accepted exactly when its slices stand where the reference's stood. |
| ReferenceStates.SameLayoutsContinue | src/codec/slice_executor.cpp:293-320 | With the same layouts in any order, matching sorted ranks gives every slice the state of its own layout. |
| FrameCodec.FrameDecodes | src/codec/slice_executor.cpp:258-333 | A coded frame is located, described, validated and decoded; the result is the coded samples and the encoder's states if and only if every slice survives, and in range mode it is refused otherwise. |
| FrameCodec.RunDecodes | src/codec/slice_executor.cpp:277-332 | Over any run of frames the decoder stays in step with the encoder, samples and per-slice states, if and only if every slice survives. |
| FrameDecoding.DecodeSerial | src/codec/slice_executor.cpp:399-411 | Slice after slice, the first failure ends the frame. |
| FrameDecoding.DecodeParallel | src/codec/slice_executor.cpp:413-449 | In batches, with any number of threads: same status, samples and states as serial decoding. |
| FrameDecoding.FrameDecoder.Configure | src/codec/decoder.cpp:28-51 | A record replaces the stream and forgets the reference states; a bad record changes nothing. |
| FrameDecoding.FrameDecoder.Decode | src/codec/decoder.cpp:115-140 | A frame decodes as specified; reference states change only on success, and nothing depends on the number of threads. |
| EncoderProfile.ProfileGuarantees | src/codec/encoder_profile.cpp:12-112 | Every stream the profile lets through is one both slice coders support, passes the validator's quarter rule and has no empty region. |
| EncoderProfile.RecordCodable | src/codec/encoder.cpp:24-48 | Its configuration record can always be written and parsed. |
| FrameEncoding.FrameEncoder.Configure | src/codec/encoder.cpp:24-48 | Configuring succeeds exactly when the profile allows, hands out a record that parses to the stream, and starts anew; a refusal changes nothing. |
| FrameEncoding.FrameEncoder.EncodeFrame | src/codec/encoder.cpp:50-67 | The n-th success is a keyframe iff the interval divides n; failures change nothing; the missing-reference errors are unreachable; a picture of the stream fails only if some slice outgrows the 24-bit size. |
| FrameEncoding.HistoryIsRun | src/codec/slice_encode_executor.cpp:111-204 | The successful calls of an encoder form a run: every slice goes on from the state its predecessor left. |
| FrameEncoding.PicturesCode | src/codec/slice_encode_executor.cpp:86-204 | After any history, every picture of the stream has all its slices coded. |
| FramePicture.CutReturns | src/codec/slice_output_window.cpp:22-90 | A picture cut into the cells of the grid comes together again, in whatever order its slices are stored. |
| FramePicture.PictureReturns | src/codec/slice_executor.cpp:399-449 | A picture cut, encoded, decoded and stored in any interleaving is the picture, sample by sample. |
| Sessions.DecoderFollows | src/codec/decoder.cpp:28-140 | A decoder given only the encoder's record, the frames and the dimensions returns the samples of the successful calls and holds the encoder's states, if and only if every slice survives. |
| Sessions.PictureCut | src/codec/slice_input_window.cpp:84-182 | The cells of a picture of the stream's planes and depth are slice images the encoder codes. |
| Sessions.PicturesFollow | src/codec/slice_encode_executor.cpp:86-204 | From pictures to pictures: the n-th frame of a surviving session shows the n-th picture. |
| SymbolLayout.SymbolPlaced | src/entropy/range_encoder.cpp:356-393 | For 2^e <= m < 2^(e+1): not-zero in state 0, e ones and a zero in states 1 to 10, the bits below the leading one, highest first, in states 31 down to 22, the sign in state 11 + min(e, 10). |
| SymbolLayout.ScalarConsults | src/entropy/range_coder.cpp:440-511 | Whatever the payload, a number that is read was read from exactly those states, one after the other. |
| SymbolLayout.ScalarRefused | src/entropy/range_coder.cpp:467-482 | A number is refused exactly when it is not zero and has 63 ones. |
| DecisionShares.SharesStand | src/entropy/range_encoder.cpp:250-280 | A one gets floor(width * state / 256) at the top of the interval, a zero the rest at the bottom, and an interval below 256 is scaled by 256 once. |
| DecisionShares.ShareDecides | src/entropy/range_coder.cpp:407-438 | The decoder finds a one exactly when the payload stands in the upper share. |
| DecisionShares.ZeroMirrorsOne | src/mffv1/state_transition.hpp:29-44 | A zero moves a state as a one moves its mirror image, the other way; state 0 stays. |
| DecisionShares.DefaultAdvances | src/mffv1/state_transition.hpp:10-27 | Every entry of the default table: a twentieth of the way to 256, rounded, with eleven states rounded the other way, 248 at the top and nothing outside 8..248. |
| GolombLayout.CodePlaced | src/entropy/golomb_rice_writer.cpp:34-69 | Quotient in zeros, a one and k low bits below 12 * 2^k; twelve zeros and w bits of the number less eleven above; bit by bit. |
| GolombLayout.CodeTaken | src/entropy/golomb_rice_reader.cpp:60-89 | Whatever the bits, a number that is taken stands there like that. |
| GolombLayout.SymbolPlaced | src/entropy/golomb_rice_context.cpp:139-170 | A symbol is the centred difference from the bias, complemented when the mean drift is below minus one half, ranked 0, -1, 1, -2, ..., coded with the least k for which count * 2^k reaches the error sum; and the context ages by that difference. |
| GolombLayout.SymbolTaken | src/entropy/golomb_rice_context.cpp:85-120 | On arbitrary bits the same holds of what is read. |
| GolombLayout.InterruptionPlaced | src/entropy/golomb_rice_context.cpp:172-186 | The difference that ends a run is coded one lower if positive, as it is if negative, and refused if zero. |
| GolombAging.SymbolAges | src/entropy/golomb_rice_context.cpp:58-76 | After writing, count, error sum, drift and bias are those of the ageing law: halved at 128 values, bias one down at a drift of at most minus the count, one up at a positive drift, within limits. |
| GolombAging.TakenSymbolAges | src/entropy/golomb_rice_context.cpp:58-76 | After reading, on any bits, as well. |
| GolombAging.BalanceKept | src/entropy/golomb_rice_context.cpp:58-76 | Unless something is halved or clamped, count times bias plus drift adds up all values. |
| GolombAging.BiasFollows | src/entropy/golomb_rice_context.cpp:63-75 | The bias goes down exactly at a drift of at most minus the count, up exactly at a positive one; the past is halved exactly at 128 values. |
| RunPieces.PieceLengths | src/entropy/golomb_rice_run.cpp:13-20 | The run table in closed form: pieces double after every fourth index, from 16 on after every second, from 24 on after every one. |
| RunPieces.RunPlaced | src/entropy/golomb_rice_run.cpp:95-150 | A one for each of the most pieces that fit, then, unless they end with the row, a zero and the remainder; the index moves past the pieces and one back after a zero. |
| RunPieces.PiecesUnique | src/entropy/golomb_rice_run.cpp:95-150 | No other number of pieces fits. |
| RunPieces.SegmentTaken | src/entropy/golomb_rice_run.cpp:30-93 | On arbitrary bits a segment moves by the same lengths and the index by the same rule. |
| Prediction.PredictionContinues | src/mffv1/predictor.cpp:16-21 | Beyond both neighbours the prediction is the nearer one, between them it continues the plane. |
| Prediction.Signed16Continues | src/mffv1/predictor.cpp:9-33 | The same on sign-extended 16-bit neighbours. |
| Prediction.NeighborsStand | src/codec/slice_decoder.cpp:73-84 | The six neighbours are samples of the plane or of its border: zeros above, the sample above the first one to the left, the last one to the right. |
| Prediction.ContextSums | src/mffv1/context_model.cpp:29-60 | The context is the sum of the five tables at the five gradients modulo 256, its sign the inversion, refused when it reaches the number of contexts. |
| Prediction.SentCentred | src/mffv1/predictor.cpp:52-62 | What is sent is the number nearest zero that leads from prediction to sample modulo 2^bits, negated in inverted contexts. |
| Prediction.SampleStands | src/codec/slice_encoder.cpp:466-500 | In range mode a sample is a signed number in the context of its neighbourhood, in its slot's bank. |
| Prediction.SmoothRowSendsZeros | src/codec/slice_encoder.cpp:466-500 | A row whose samples continue the plane within their neighbours' range is sent as zeros in range mode. |
| Prediction.SmoothRowIsOneRun | src/codec/slice_encoder.cpp:678-777 | And is a single run to its end in Golomb-Rice mode. |
| RowHistory.ContentComesFromPlanes | src/codec/slice_encoder.cpp:420-617 | The line buffers never hold anything but the two rows above: a slice in range mode is its rows, each coded from its place on the plane, with its slot's tables and bank. |
| RowHistory.GolombRowPassed | src/codec/slice_encoder.cpp:678-777 | The same for every row in Golomb-Rice mode. |
| RowHistory.TurnPlaced | src/codec/slice_encoder.cpp:678-777 | Turn by turn: a symbol where the context is not zero, otherwise the longest predicted run and the sample that interrupts it. |
| RowHistory.GolombItemPlaced | src/codec/slice_encoder.cpp:678-777 | A row uses and changes only the contexts of its slot and its own run state. |
| RowHistory.ScheduleAscends | src/codec/slice_encoder.cpp:822-876 | Rows come plane by plane without the colour transform, and planes row by row with it. |
| RowHistory.ScheduleItems | src/codec/slice_encoder.cpp:822-876 | Each row has its plane's slot, its plane's run state or the shared first one, and its own width. |
| ColorMeaning.ForwardMeans | src/mffv1/color_transform.cpp:9-46 | Cr is red and cb the third colour, as differences from the base, offset by 2^bits; y is the base and a quarter of both, rounded down; the base is green, or blue between 9 and 15 bits without an extra plane. |
| ColorMeaning.UnboundedMeans | src/mffv1/color_transform.cpp:48-82 | The inverse finds the colours with that meaning, for any coefficients. |
| ColorMeaning.PlanesTransformed | src/codec/slice_encoder.cpp:502-560 | On a window, planes 0, 1 and 2 are red, green and blue and are coded as y, cb and cr; an extra plane is coded as it is. |
| ColorMeaning.InverseCuts | src/mffv1/color_transform.cpp:76-82 | And keeps of each its value modulo 2^bits. |
| FramingLayout.GeneratorOnly | src/util/crc32.cpp:14-28 | 01 04 c1 1d b7 is divisible, and no other five bytes beginning with 01 are. |
| FramingLayout.FooterStands | src/codec/slice_footer_writer.cpp:36-52 | After the payload stands its length in three bytes, most significant first, then with parity the status and four bytes that make the slice divisible. |
| FramingLayout.FirstSliceFirst | src/codec/slice_encode_executor.cpp:252-279 | A frame is its slices one after the other, the first one first. |
| RecordLayout.HeadPlaced | src/codec/configuration_record_writer.cpp:251-279 | A record begins with 3, 4, and 0, 1 or 2 for the coder, after 2 the 255 differences from the default transitions. |
| RecordLayout.FormatPlaced | src/codec/configuration_record_writer.cpp:280-316 | Then the nine parameters of format and grid, each as number or flag, in this order. |
| RecordLayout.StatesPlaced | src/codec/configuration_record_writer.cpp:153-183 | Initial states are a flag and 32 signed differences per context, each in the context of its own number, from the context before or from 128. |
| RecordLayout.NoStatesPlaced | src/codec/configuration_record_writer.cpp:325-331 | A set without initial states is one flag. |
| RecordLayout.SetsInOrder | src/codec/configuration_record_writer.cpp:318-324 | Table sets are written one after the other, each with a scale of its own. |
| RecordLayout.StatesInOrder | src/codec/configuration_record_writer.cpp:325-339 | So are their initial states. |
| RecordLayout.RecordPlaced | src/codec/configuration_record_writer.cpp:235-345 | The parts in order, and last whether errors are signalled and whether all frames are keyframes. |
| RecordLayout.NormalizedKeeps | src/codec/configuration_record_parser.cpp:13-63 | A parsed record keeps every field but the dimensions. |
| RecordLayout.ProfileExactly | src/codec/configuration_record_writer.cpp:347-430 | For which streams a record can be written, as one condition. |
| TableLayout.SetPlaced | src/codec/configuration_record_writer.cpp:60-151 | A written table is odd, its first half runs of multiples of the scale that the tables before it left, and n runs multiply the scale by 2n - 1. |
| TableLayout.TablePlaced | src/codec/configuration_record_writer.cpp:60-109 | Each run is written as its length less one, inside a scope of the table's own. |
| TableLayout.SetCounted | src/codec/configuration_record_writer.cpp:128-151 | Half of the last scale, rounded up, is the number of contexts. |
| GridLayout.WindowHolds | src/mffv1/stream_parameters.hpp:124-167 | Which samples a slice holds, without division: those whose right and lower edges lie beyond its first grid lines and not beyond its last. |
| GridLayout.ExtentRoundsUp | src/mffv1/stream_parameters.hpp:70-81 | Subsampled dimensions are rounded up. |
| GridLayout.PlanesStand | src/mffv1/stream_parameters.hpp:51-122 | Which planes there are, which are subsampled, and which table slot each one uses. |
| GridLayout.HeaderPlaced | src/codec/slice_header_writer.cpp:7-63 | A header is column, row, width and height less one, table choices, picture structure and aspect ratio, all unsigned in one context. |
| GridLayout.DescriptionPlaced | src/codec/slice_encoder.cpp:286-305 | Before the first slice's header stands the keyframe bit, after which the context starts anew. |
| GridLayout.RasterExactly | src/codec/slice_header_parser.cpp:145-219 | Which headers are accepted, as one condition. |
| GridLayout.QuarterRule | src/codec/version3_constraints.hpp:7-17 | A slice may cover at most a quarter of the cells if the frame has more than 352 * 288 samples. |
| FrameLaws.KeyframeForgets | src/codec/slice_executor.cpp:277-279 | A keyframe, of whatever bytes, decodes to the same whatever was decoded before. |
| FrameLaws.StatesResumed | src/codec/slice_executor.cpp:293-320 | Any other frame starts each slice from the state the reference holds for the same rectangle. |
| FrameLaws.ReferenceReplaced | src/codec/slice_executor.cpp:323-332 | After a frame exactly the states and rectangles of its slices are kept. |
| FrameLaws.SlicesApart | src/codec/slice_executor.cpp:399-449 | Slices are decoded each for itself; a frame decodes if and only if all do. |
| FrameLaws.FirstFailureDecides | src/codec/slice_executor.cpp:399-449 | Otherwise with the error of the first slice that fails. |
| FrameLaws.SlicesPlaced | src/codec/slice_encode_executor.cpp:225-292 | The encoder codes one slice per cell, row by row, from nothing in a keyframe and otherwise from what the slice of the same number left. |
| CodingStart.CoderStarts | src/entropy/range_encoder.cpp:43-61 | Coding starts from zero with a width of 0xff00 and two bytes, decoding from the first two bytes of the payload. |
| CodingStart.SentinelStands | src/entropy/range_encoder.cpp:237-248 | The sentinel is a zero in a state of 129 that does not adapt. |
| CodingStart.FreshContexts | src/entropy/range_encoder.cpp:63-132 | Contexts without initial states of their own are all 128. |
| CodingStart.ContextStands | src/entropy/range_encoder.cpp:63-132 | Context k of a bank stands after all contexts of the banks before it. |
| CodingStart.GolombStarts | src/codec/slice_decoder.cpp:985-1024 | A Golomb-Rice slice starts with nothing above, no run, and kept contexts or fresh ones. |
| CodingStart.SliceStarts | src/codec/slice_encoder.cpp:349-392 | A range slice has for each slot the contexts of its chosen table set, from what the slice before left or from the stream's initial states. |
| CodingStart.ProfileAccepts | src/codec/encoder_profile.cpp:12-112 | Which pictures an encoder can be configured for, as one condition, and the stream it then codes, field by field. |
| CodingStart.BitStands | src/bitstream/bit_writer.cpp:30-54 | Bit i of a byte string stands for 2^(7 - i mod 8) in byte i / 8. |
| TinySlice.TinyEncodes | src/entropy/range_encoder.cpp:457-491 | The right one-sample slice of a two-sample frame is encoded: three bytes after its header, three at the end. |
| TinySlice.TinyRefused | src/codec/slice_decoder.cpp:1355-1373 | Closed to two bytes, it is refused by the slice decoder. |
| TinyFrame.RefusedFrameExists | src/codec/slice_decoder.cpp:1355-1373 | A stream of the profile and a frame of it that the encoder makes and the decoder refuses. |
| TinyGolomb.PairMisread | src/codec/slice_executor.cpp:59-97 | Read from one byte early, the black right slice decodes without error, to a first sample of 253. |
| FrameCodec.GolombRunSurvives | src/codec/slice_executor.cpp:59-69 | Without an extra plane, or with one slice, every Golomb-Rice slice survives. |
| FrameCodec.TooManySlices | src/codec/slice_payload_locator.cpp:135-138 | A grid of more cells than 32 bits can count is refused before any slice is looked at. |
| WideTables.WideRecordRefused | src/mffv1/configuration_parser.cpp:299-340 | A record with 97538 contexts that the writer makes and the parser refuses. |
| MisreadFrame.MisreadFrameExists | src/codec/slice_executor.cpp:59-97 | A stream of the profile and a frame of it that the decoder returns, without an error, as another picture. |

## Left out

- Legacy streams, versions 0 and 1, with their arithmetic, embedded parameters and bootstrap parser: nothing in the encoder corresponds to them.
- Slices of no bytes at all: for a first slice of size zero the source takes the footer for content, the model refuses it. No encoder makes one.
- Arbitrary range-coded content, as opposed to encoded content: integers are unbounded in the model, while the source adds prediction and difference in 32 bits.
- FrameDecoding.FrameDecoder.Decode: output planes, their roles and strides, and the checks of the output view before decoding are not modelled; decoded slices are returned as values, and storing them is the subject of `SliceWrites` and `FramePicture`. The checks of all slices that precede decoding can change which error is reported, not whether there is one.
- FrameDecoding.DecodeParallel: threads are batches in which every slice is decoded from its own state; memory is not shared, and interleaved stores are treated separately.
- FrameEncoding.FrameEncoder.EncodeFrame: takes the samples of each cell rather than a view of the frame; `Sessions.PictureCut` says how the two are related. Slices are coded in order, not in parallel.
- ConfigurationParsing.ReadRecord: promises failure where the specification fails, but not the same error code.
- SliceCoding.EncodeRangeSlice: the order in which a sample out of range and a coding failure are noticed is not part of the contract, so error codes are not either; the same holds for SliceCoding.EncodeGolombSlice.
- Entropy state of a slice is a value that is passed along in the slice coders, while rows and slice contents update the `SliceState` object in place.
- SIMD kernels, which compute the same transform; CPU detection.
- Messages, locations, traces, observers and container capacities; an operation reports an error class.
- The bit offset of the content, which is zero in version 3, and the error status of the footer beyond its range, since nothing reads it.
- Frame inspection, which is parsing without decoding.
