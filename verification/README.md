# Verified models of the call stack

The program places WhatsApp voice and video calls. This project models four parts of it in Dafny and
proves what they are for.

1. **The MLow speech codec's bitstream** (`src/voip/media/mlow`). A range coder in the manner of RFC 6716
   carries three chained internal frames per packet. The encoder's walk over a frame and the decoder's walk
   share no code and do not even use the same pitch tables: one holds them as slices, the other reads a
   byte-addressed memory window. `FrameCoder.RoundTrip` composes everything below it, down to single
   carry digits: what `EncodeSmplFrame` writes is what `decodeActiveFrame` reads, from any decoder state
   and whatever bytes follow the packet.
   `Bytes`, `Wrappers`, `Intervals`, `Digits`, `EncoderMath`, `RangeEncoder`, `RangeDecoder`, `RangeRoundTrip` are the
   coder; `Pulse*`, `LsfCoder`, `GainCoder`, `Pitch*`, `SmplMem`, `CodecTables`, `CdfExpansion` the blocks
   and tables; `FrameCoder` the packet; `WireFormat` says of every symbol which entry of which table it is.
2. **The video path** (`src/voip/transport`, `src/voip/media`, `src/voip/call/video`). Annex B access units
   become RTP payloads, RTP packets and SRTP packets, and come back as one Annex B frame
   (`VideoPipeline.SendAccessUnit`). Files `AnnexB`, `H264Packets`, `Rtp`, `Srtp`, `VideoPipeline`, `MediaWire`.
3. **Codec numerics**: the mixed-radix FFT, LPC stability, the fixed-point line-spectrum search, the
   incremental pulse search, spacing repair, the noise tracker, unrolled filters. Files `Fft`, `Lpc`,
   `LpcMeaning`, `LspPolynomials`, `RootSearch`, `RootMeaning`, `FcbEnergy`, `FcbSearch`, `FcbPositive`, `NlsfStabilize`, `VadNoise`,
   `IirFilters`, `Reals`.
4. **The call lifecycle** (`src/voip/call`): one call's state machine, and the manager's lock sections
   interleaved in every possible way. Files `CallState`, `CallLifecycle`, `CallScenarios`.

## How it is built

- The range coder's meaning is an interval of integers (`Intervals.Interval`). `Intervals.Carries` says that
  a byte string lies in the sub-interval of a list of symbols. The encoder keeps a ghost list of the symbols
  written; after `Done` the bytes carry it. The decoder keeps the interval it is in; a symbol that is carried
  is the one it finds.
- Each block has one function from its parameters to the symbols it is coded as (`PulseSyms`, `LsfSyms`,
  `PitchSyms`, `GainSyms`). The encoder method appends exactly those symbols. The decoder method is total:
  on any bytes it returns well-formed parameters without leaving a table, and on bytes that carry a block's
  symbols it returns that block and leaves the rest carried.
- A round trip cannot see a change that both ends make together. So the wire itself is stated as well: each
  symbol by table and entry (`WireFormat`, `LsfCoder.LsfWireIff`), each protected byte by key stream and place
  (`Srtp.Sealed`, `Srtp.Encrypted`), headers and fragments byte by byte (`MediaWire`), and what each numeric
  operation does to the filter, polynomial or level it works on (`LpcMeaning`, `RootMeaning`, and the last
  sections of `VadNoise`, `NlsfStabilize` and `FcbSearch`).
- Tables are parameters with a well-formedness predicate. That rows expanded from the seeds are well-formed
  is proved in `CdfExpansion`.
- Floating point is modelled over the reals, fixed point over integers, with the conversions written out
  where the source relies on them.
- Where the code loses something, the exact condition is proved in both directions. A unit over 4 MiB, an
  empty one, or a short one of type 0 or above 23 does not survive packetising (`H264Packets.RecoveredIff`).
  A unit that contains a
  start code, or ends in zero before another one, does not survive the split (`AnnexB.SplitStreamIff`). A
  header extension whose length is not a multiple of four is cut (`Rtp.HeaderRoundTripIff`). An SRTP packet
  that was sent before the last sequence wrap and arrives after it is placed wrongly
  (`Srtp.ReceiverStepIff`). For each there is a lemma with a concrete input: `H264Packets.LostUnits`,
  `AnnexB.TrailingZeroLost`, `AnnexB.EmbeddedCodeSplits`, `Rtp.ExtensionCut`, `Srtp.LateAcrossWrap`.

## Model

| member | source | states |
|---|---|---|
| RangeRoundTrip.RoundTrip | src/voip/media/mlow/rangecoder.go:83-559 | For every list of symbols whose totals any width can be cut into (up to 2^23), encoding succeeds if and only if the bytes the symbols need fit the buffer, and then a decoder over the flushed bytes and anything after them returns a value inside every symbol's range, both ends equally wide after each symbol |
| RangeRoundTrip.EncodeAll | src/voip/media/mlow/rangecoder.go:395-410 | Encoding and flushing succeeds if and only if the needed bytes fit, takes exactly that many, and they carry the symbols whatever follows |
| RangeRoundTrip.DecodeAll | src/voip/media/mlow/rangecoder.go:96-146 | On bytes that carry the symbols every decoded value lies in its symbol's share, with the widths of the specification throughout |
| RangeEncoding.RangeEncoder.Encode | src/voip/media/mlow/rangecoder.go:395-410 | One more symbol is recorded and the registers stand for its sub-interval; a zero total is refused as an error |
| RangeEncoding.RangeEncoder.EncodeCDF | src/voip/media/mlow/rangecoder.go:441-456 | A table symbol is coded as its share of the table; a symbol outside it, or a degenerate table, is an error and writes nothing |
| RangeEncoding.RangeEncoder.EncodeRawSymbol | src/voip/media/mlow/rangecoder.go:495-499 | A uniform symbol is one value out of two to the number of bits, up to 23 |
| RangeEncoding.RangeEncoder.CarryOut | src/voip/media/mlow/rangecoder.go:362-383 | The held byte and the run of 255s behind it are released exactly when no carry can change them; running out of room is flagged, never silent |
| RangeEncoding.RangeEncoder.Normalize | src/voip/media/mlow/rangecoder.go:385-393 | Renormalising terminates, restores the width to (2^23, 2^31] and shifts out exactly the specification's digits |
| RangeEncoding.RangeEncoder.Done | src/voip/media/mlow/rangecoder.go:507-546 | The flush leaves bytes that carry the symbols whatever follows, exactly as many as they need, with zeros behind them; it fails only if those do not fit or the encoder was misused |
| Digits.CarryOutNumber | src/voip/media/mlow/rangecoder.go:362-383 | Appending a nine-bit digit multiplies the number held in bytes, held byte and 255s by 256 and adds the digit: a carry is neither lost nor can it overflow |
| Digits.SettledValue | src/voip/media/mlow/rangecoder.go:362-383 | Resolving the held byte and its run of 255s, with or without a carry, gives bytes whose value is the number held |
| EncoderMath.NormalizeRound | src/voip/media/mlow/rangecoder.go:385-393 | One masked 32-bit shift of the registers is exactly one multiplication of the interval by 256 |
| EncoderMath.NarrowSound | src/voip/media/mlow/rangecoder.go:395-410 | The two register updates, the top share and the others, both give the symbol's sub-interval |
| EncoderMath.FinishInside | src/voip/media/mlow/rangecoder.go:507-524 | The few leading bits that the flush picks lie in the final interval with every continuation of them |
| EncoderMath.FlushBitsLeast | src/voip/media/mlow/rangecoder.go:507-524 | With fewer leading bits than the flush fixes, no choice of them stays inside the interval: the number of bytes needed is the least |
| EncoderMath.FlushedCode | src/voip/media/mlow/rangecoder.go:524-546 | The flushed bytes followed by anything keep the chosen leading bits |
| Intervals.QuantiseIff | src/voip/media/mlow/rangecoder.go:96-112 | A frequency falls into a symbol's range if and only if the code lies in the symbol's sub-interval |
| Intervals.ContainsSteps | src/voip/media/mlow/rangecoder.go:385-410 | The sub-interval of a list of symbols lies inside the interval it starts from |
| WireFormat.SharesTile | src/voip/media/mlow/rangecoder.go:395-410 | The shares of an interval follow one another without gap or overlap, each as wide as its frequencies times the quotient, with the remainder in the first |
| RangeDecoding.RangeDecoder.Decode | src/voip/media/mlow/rangecoder.go:96-112 | The quantised offset, or an error state for a total that the width cannot hold |
| RangeDecoding.RangeDecoder.Update | src/voip/media/mlow/rangecoder.go:135-146 | After a symbol the decoder stands in that symbol's interval and its registers stay in range |
| RangeDecoding.RangeDecoder.Normalize | src/voip/media/mlow/rangecoder.go:83-93 | Over any bytes, past the end included, renormalising ends with val below rng and rng in (2^23, 2^31] |
| RangeDecoding.RangeDecoder.DecodeCDF | src/voip/media/mlow/rangecoder.go:195-221 | On any bytes and any table whose entries stay between its ends, the result is a symbol of the table with a share of its own; on bytes that carry a table symbol it is that symbol and the rest stays carried |
| RangeDecoding.RangeDecoder.DecodeRawSymbol | src/voip/media/mlow/rangecoder.go:114-133 | The inverse of the uniform encoder, and in range on any bytes |
| RangeDecoding.RangeDecoder.Decode64FineSym | src/voip/media/mlow/rangecoder.go:269-287 | The inverse of the 64-way fine symbol, and in range on any bytes |
| CdfExpansion.ExpandValid | src/voip/media/mlow/celp_enc.go:249-266 | Every positive weight list of fewer than 32767 entries expands to a strictly increasing table from 0 into (32767 - n, 32767] |
| CdfExpansion.CumBounds | src/voip/media/mlow/cc_tables.go:98-113 | No cumulative value exceeds its room and the last one misses 32767 by less than the number of entries |
| CdfExpansion.ByteTableValid | src/voip/media/mlow/lsf_seed.go:327-349 | Every byte table of 1 to 32766 bytes expands to a usable table, so every seed row does |
| CdfExpansion.SymbolShare | src/voip/media/mlow/celp_enc.go:249-266 | Each symbol is worth one and its part of the rest, rounded down, by the square of its byte plus one, 65535 at most |
| CdfExpansion.CelpDcmfToCmf | src/voip/media/mlow/celp_enc.go:249-266 | The in-place expander with 32-bit products and 16-bit sums agrees with the plain expansion: nothing wraps |
| CdfExpansion.WideDcmfToCmf | src/voip/media/mlow/pitch_seed.go:149-170 | The wide expander, which lsf_seed.go repeats, gives the same table as the in-place one |
| CdfExpansion.PdfToCmf | src/voip/media/mlow/cc_tables.go:98-113 | The same table and bounds for any non-negative distribution with a positive sum |
| CodecTables.WindowValid | src/voip/media/mlow/cc_tables.go:472-487 | A window that stays inside a usable table is a usable table |
| PulseSpec.TriTExact | src/voip/media/mlow/encoder.go:366-386 | Under its 32-bit wrap-around and masks the count prior is a quadratic, positive and at most 13521 |
| PulseSpec.TriTIncreasing | src/voip/media/mlow/pulse.go:58-88 | The prior is strictly increasing over 0 to 160, so the decoder's search has one answer |
| PulseVectors.GatherBuild | src/voip/media/mlow/analysis.go:528-608 | Collecting the run lengths of a vector finds exactly its pulses, repeated positions included |
| PulseVectors.ScatterBack | src/voip/media/mlow/pulse.go:199-210 | Scattering a vector's pulses with their signs gives the vector back |
| PulseVectors.BuildPainted | src/voip/media/mlow/analysis.go:528-608 | Building runs and signs from a described vector returns the runs and signs that described it |
| PulseSymbols.BatchesBack | src/voip/media/mlow/pulse.go:176-197 | Packing signs into 15-bit batches and reading them back loses nothing, for any number of signs |
| PulseBijection.VectorRoundTrip | src/voip/media/mlow/analysis.go:528-608 | Every 320-entry vector with at most 40 units in each subframe becomes valid parameters whose excitation is that vector |
| PulseBijection.ParamsRoundTrip | src/voip/media/mlow/pulse.go:34-210 | Every valid parameter set is the one built from its own excitation, whose subframe sums are its counts, at most 40 |
| PulseBijection.SignBatchesBack | src/voip/media/mlow/encoder.go:440-446 | Valid batches are the batches of the signs they hold |
| PulseBuilder.BuildPulseParams | src/voip/media/mlow/analysis.go:528-608 | The scanning loops compute the parameters that the round trips are about, for every vector |
| PulseCoder.EncodeSplit3537 | src/voip/media/mlow/encoder.go:448-465 | A split writes one symbol when there is a choice and none when there is not |
| PulseCoder.EncodeSmplPulses | src/voip/media/mlow/encoder.go:357-446 | The pulse block appends exactly its symbols: count, two-level split, runs, sign batches |
| PulseReader.DecodeCount | src/voip/media/mlow/pulse.go:54-88 | The search finds the sent count and never one above 160 |
| PulseReader.DecodeSplit3537 | src/voip/media/mlow/pulse.go:212-233 | The share is one that both halves can hold, and the sent one if it was sent |
| PulseReader.DecodeSigns | src/voip/media/mlow/pulse.go:176-197 | The sign loop applies the batches' bits to the magnitudes in order |
| PulseReader.DecodeSmplPulses | src/voip/media/mlow/pulse.go:31-210 | On any bytes: a valid block, so at most 40 units per subframe and 160 in all, and the excitation it describes; on a sent block: that block |
| WireFormat.CountWire | src/voip/media/mlow/encoder.go:366-386 | The count's range of frequencies as an explicit quadratic out of 13521 |
| WireFormat.PairWire | src/voip/media/mlow/encoder.go:448-465 | A subframe pair: which entry of which split table, from which place on, or nothing where there is no choice |
| WireFormat.HalvesWire | src/voip/media/mlow/encoder.go:388-407 | The two halves: the same for the first split |
| WireFormat.RunWire | src/voip/media/mlow/encoder.go:415-438 | Run j is an entry of the table for the positions left, in eights, and the pulses to come, cut to the positions left |
| WireFormat.MagnitudeWire | src/voip/media/mlow/encoder.go:415-438 | The runs of each subframe stand behind those of the subframes before it |
| WireFormat.SignWire | src/voip/media/mlow/pulse.go:176-197 | Pulse q's sign is bit q mod 15 from the top of batch q / 15, set for a positive pulse, and batches are uniform symbols |
| WireFormat.RunsExample | src/voip/media/mlow/analysis.go:528-608 | The run lengths and signs of a vector, written out: gaps from the pulse before and a zero for each further unit |
| WireFormat.PulseWire | src/voip/media/mlow/encoder.go:357-446 | The order of the block: count, halves, pairs, runs, signs |
| LsfCoder.EncodeSmplLsf | src/voip/media/mlow/encoder.go:309-355 | The spectrum block appends exactly its symbols, which are the named entries of the named tables, and advances the predictor |
| LsfCoder.DecodeSmplLsf | src/voip/media/mlow/lsf.go:83-155 | On any bytes valid indices inside their rows; on bytes that carry the block as the named tables code it, that block, with the same predictor as the encoder's |
| LsfCoder.LsfWireIff | src/voip/media/mlow/encoder.go:311-355 | The block is nineteen symbols and no others: the selector by frame number and the voicing before, the grid from match1, match1Alt, match0Alt or match0 by match and voicing, sixteen residuals of the grid's row, and the extra index |
| GainCoder.GainQFits | src/voip/media/mlow/gains.go:28-40 | The quantised gain never leaves 32 bits |
| GainCoder.EncodeSmplGains | src/voip/media/mlow/encoder.go:467-508 | The gain block appends exactly its symbols, residuals only where a subframe has pulses |
| GainCoder.DecodeSmplGains | src/voip/media/mlow/gains.go:15-65 | On any bytes valid gains; on a sent block the sent gains, residuals of empty subframes read as zero |
| WireFormat.GainWire | src/voip/media/mlow/encoder.go:469-508 | The two gain indices by table and entry, then the residuals |
| WireFormat.NrgStepWire | src/voip/media/mlow/encoder.go:485-507 | One residual for each subframe with pulses, in order |
| WireFormat.NrgWire | src/voip/media/mlow/gains.go:42-62 | The residual's table by tens of pulses, up to three, shifted by the gain in units of 16384, rounded and held to 0 to 85 |
| WireFormat.GainQWire | src/voip/media/mlow/gains.go:28-40 | The log gain by its table entries |
| SmplMem.RegionFor | src/voip/media/mlow/mem.go:130-139 | The first region that covers the bytes asked for, or none |
| SmplMem.SmplMem.CDFAt | src/voip/media/mlow/mem.go:180-189 | A table read by address is the 16-bit values stored there |
| SmplMem.BuildSmplMem | src/voip/media/mlow/mem.go:50-113 | The byte image holds exactly the pitch tables, region by region |
| SmplMem.LittleBack | src/voip/media/mlow/mem.go:150-172 | A little-endian number is read back from the middle of a region |
| SmplMem.ReadRecord | src/voip/media/mlow/pitch.go:79-201 | The address arithmetic on contour records reads each record's own words |
| SmplMem.ReadHeader | src/voip/media/mlow/mem.go:54-113 | The header words that the decoder follows are the addresses the builder used |
| SmplMem.ReadLagCdf | src/voip/media/mlow/pitch.go:79-201 | Any part of the contour table read by address is that part of the slice table |
| SmplMem.ReadFracCdf | src/voip/media/mlow/pitch.go:79-201 | Any part of a mode's delta-lag table read by address is that part of the slice table |
| SmplMem.ReadTransitionCdf | src/voip/media/mlow/pitch.go:79-201 | A block's transition row read by address is the slice row |
| SmplMem.ReadContour | src/voip/media/mlow/pitch.go:79-201 | The contour map read by address is the encoder's numbering |
| SmplMem.ReadBounds | src/voip/media/mlow/pitch.go:79-201 | The first-block ranges read by address are the encoder's |
| PitchTables.SegInside | src/voip/media/mlow/pitch_seed.go:106-117 | Segments of a valid contour are non-empty, in order and fill the eight lag blocks exactly |
| PitchCoder.EncodeLagsWire | src/voip/media/mlow/pitch.go:272-333 | From any predictor the lag walk appends exactly the contour's and the segments' symbols |
| PitchCoder.LagsPredictorAfter | src/voip/media/mlow/pitch.go:335-342 | The carried block and lag are a valid predictor |
| PitchCoder.EncodeSmplPitch | src/voip/media/mlow/encoder.go:510-564 | The pitch block appends exactly its symbols and moves the predictor as specified |
| PitchReader.DecodeContour | src/voip/media/mlow/pitch.go:79-110 | The contour decoded through the memory window is the one sent, with or without a predictor |
| PitchReader.DecodeLags | src/voip/media/mlow/pitch.go:79-201 | Block lags are constant over each segment; on sent lags they equal the encoder's, and the carried block and lag are the last ones |
| PitchReader.DecodeSmplPitch | src/voip/media/mlow/pitch.go:31-202 | On any bytes no table is left and the predictor stays valid; on a sent block the sent gains, filters, contour and lags, with the encoder's predictor |
| WireFormat.LtpWire | src/voip/media/mlow/encoder.go:513-550 | Each subframe's gain in the row of the gain before, and with pulses its filter in the first table or in the one of steps from the last filter sent |
| WireFormat.ModeWire | src/voip/media/mlow/pitch.go:58-201 | Which of the three lag tables the weights of the four gains pick |
| WireFormat.ContourWire | src/voip/media/mlow/pitch.go:284-300 | The contour's number outright, or its first block and its place among those that start there |
| WireFormat.FirstLagWire | src/voip/media/mlow/pitch.go:301-320 | The first lag in steps from the lag before if its block is from one below to two above, else outright among 64 |
| WireFormat.DeltaWire | src/voip/media/mlow/pitch.go:301-333 | Every further lag among the 64 of its block, at the place in the step table that the lag before gives |
| FrameCoder.AnyPredictor | src/voip/media/mlow/lsf.go:51-71 | Frame 0 resets every predictor: a packet has the same symbols and leaves the same state from any state before it |
| WireFormat.InternalWire | src/voip/media/mlow/encoder.go:578-590 | The order of the blocks, with pitch for voiced frames and gains for others |
| WireFormat.PredictorWire | src/voip/media/mlow/lsf.go:51-71 | What a frame leaves for the next: the last gain, filter sent, block and lag, and nothing across a change of voicing |
| WireFormat.OnPointBytes | src/voip/media/mlow/decoder.go:139-172 | The eight table-of-contents bytes that are decoded |
| FrameCoder.EncodeInternal | src/voip/media/mlow/encoder.go:568-595 | One internal frame appends its blocks in order and moves the predictor as specified |
| FrameCoder.EncodeSmplFrame | src/voip/media/mlow/encoder.go:566-602 | The packet is the table-of-contents byte and exactly the bytes that the frame's symbols need, which carry them whatever follows; it fails if and only if they need more than the buffer |
| FrameCoder.DecodeInternal | src/voip/media/mlow/decoder.go:186-240 | One internal frame is decoded well-formed on any bytes, and as sent on sent bytes with the predictor in step |
| FrameCoder.DecodeActiveFrame | src/voip/media/mlow/decoder.go:174-262 | Exactly three frames, well-formed on any bytes; as sent from any prior state on bytes that carry a packet |
| FrameCoder.DecodeFrame | src/voip/media/mlow/decoder.go:139-172 | Which packets are decoded and which answered with silence, and that silence leaves the predictors alone |
| FrameCoder.RoundTrip | src/voip/media/mlow/encoder.go:566-602 | The codec law: a frame is encoded if and only if its symbols fit 513 bytes, and every packet then decodes to its parameters and to the encoder's predictor, from any prior state, with any bytes behind it |
| H264Packets.PackageH264NALU | src/voip/transport/h264_packet.go:11-55 | The loop produces the specified packets: one as it is, or fragments with start and end bits |
| H264Packets.PackageFits | src/voip/transport/h264_packet.go:11-55 | Every payload is non-empty and at most 800 bytes, and no fragment is both first and last (section 5.8 of RFC 6184) |
| MediaWire.FragmentWire | src/voip/transport/h264_packet.go:11-55 | Every byte of fragment k: F and NRI with type 28, the unit's type with start bit on the first and end bit on the last, and its 798 bytes of the body |
| MediaWire.AggregateExample | src/voip/transport/h264_packet.go:57-88 | An aggregation packet written out |
| H264Packets.PackageH264STAPA | src/voip/transport/h264_packet.go:57-88 | The aggregation packet of at least two units, or nothing where one of them is empty or does not fit |
| H264Packets.H264Depacketizer.Depacketize | src/voip/transport/h264_packet.go:138-210 | From every state and on every payload, the new state and the units released are those of the specification |
| H264Packets.FragmentsRun | src/voip/transport/h264_packet.go:171-204 | Fragments in order rebuild the unit and leave nothing behind, or give nothing if it is over 4 MiB |
| H264Packets.FragmentsIgnored | src/voip/transport/h264_packet.go:171-204 | After a unit is given up its remaining fragments change nothing |
| MediaWire.Interrupted | src/voip/transport/h264_packet.go:138-210 | Any other payload ends a fragmented unit, and what is left of it is passed over |
| MediaWire.Restarts | src/voip/transport/h264_packet.go:180-185 | A fragment with the start bit starts afresh |
| H264Packets.PackageRun | src/voip/transport/h264_packet.go:138-210 | A sendable unit comes back whole from any depacketiser state |
| H264Packets.RecoveredIff | src/voip/transport/h264_packet.go:138-210 | Between units, exactly the sendable units come back |
| H264Packets.LostUnits | src/voip/transport/h264_packet.go:11-210 | Inputs that are lost: an empty unit, units of type 0 and 31, and one a byte over the limit |
| H264Packets.StapRoundTrip | src/voip/transport/h264_packet.go:152-169 | An aggregation packet comes apart into its units (section 5.7.1 of RFC 6184) |
| AnnexB.SplitAnnexB | src/voip/transport/h264_packet.go:90-116 | The scanning loop is the specified split |
| AnnexB.SplitClean | src/voip/transport/h264_packet.go:90-129 | Whatever the data, the units found are non-empty, hold no start code and, except for the last, do not end in zero |
| AnnexB.SplitStream | src/voip/transport/h264_packet.go:90-129 | Clean units behind start codes with any number of zeros split into themselves |
| AnnexB.SplitStreamIff | src/voip/transport/h264_packet.go:90-129 | Exactly the clean lists of units survive |
| AnnexB.TrailingZeroLost | src/voip/transport/h264_packet.go:98-103 | An input that is changed: a unit ending in zero before another one comes back without the zero |
| AnnexB.EmbeddedCodeSplits | src/voip/transport/h264_packet.go:90-129 | An input that is changed: a unit with a start code inside comes back as two |
| Rtp.EncodeHeader | src/voip/media/rtp.go:49-78 | The header bytes at the front of the buffer and the rest untouched, or an error and nothing touched |
| MediaWire.HeaderExample | src/voip/media/rtp.go:49-78 | A session's header written out in twelve bytes |
| MediaWire.LongHeaderExample | src/voip/media/rtp.go:49-78 | A header with padding, a source and an extension written out |
| Rtp.DecodeRtpHeader | src/voip/media/rtp.go:80-124 | The loop-free reading that the round trips are about; a header is only returned with version 2 and field widths kept |
| MediaWire.HeaderRefused | src/voip/media/rtp.go:80-110 | Exactly the packets that are refused |
| Rtp.DecodeWire | src/voip/media/rtp.go:49-124 | What decoding the bytes of any header with fewer than 16 sources gives, whatever follows: the header as the wire can express it, or an error for another version |
| Rtp.HeaderRoundTripIff | src/voip/media/rtp.go:49-124 | A header comes back if and only if the wire can express it |
| Rtp.ExtensionCut | src/voip/media/rtp.go:70-74 | An input that is changed: a one-byte extension arrives empty |
| Rtp.RtpSession.CreatePacketWithDuration | src/voip/media/rtp.go:194-202 | The packet carries the session's number and time, which advance by one and by the duration with wrap-around |
| Srtp.XorTwice | src/voip/media/srtp.go:208-215 | Exclusive-or with the same bits twice is the identity, at every width |
| Srtp.XorBit | src/voip/media/srtp.go:142-159 | Exclusive or, bit by bit |
| Srtp.GenerateIV | src/voip/media/srtp.go:142-159 | The in-place construction gives the salt masked by source and index |
| Srtp.IvExample | src/voip/media/srtp.go:142-159 | Where source and index stand in the vector, written out |
| Srtp.IvInjective | src/voip/media/srtp.go:142-159 | Two packets share a vector only if they share source and index |
| Srtp.KeyStreamNeverReused | src/voip/media/srtp.go:124-159 | Of any run of consecutively numbered and indexed packets, no two less than 2^48 apart have the same vector, which Srtp.WiresEncrypted ties to the bytes sent |
| Srtp.WiresEncrypted | src/voip/media/srtp.go:72-95 | Byte i of every packet's payload on the wire is the payload byte under place i of the key stream of that packet's own vector |
| Srtp.SenderStep | src/voip/media/srtp.go:124-140 | A consecutively numbering sender moves the index by exactly one, wraps included |
| Srtp.ReceiverStepIff | src/voip/media/srtp.go:124-140 | From any state, the receiver computes the sent index if and only if it lies in its period and not too far back, or in the next and not too far ahead |
| Srtp.LateAcrossWrap | src/voip/media/srtp.go:124-140 | An input that is misplaced: after packets 65533 and 65536, packet 65534 gets index 131070 |
| Srtp.ReceiveIff | src/voip/media/srtp.go:124-140 | Over whole runs the indices agree if and only if every packet is placed |
| Srtp.SmallGapsReceived | src/voip/media/srtp.go:124-140 | Any in-order subsequence with gaps below 32768 is indexed as sent (section 3.3.1 of RFC 3711) |
| Srtp.LatePlaced | src/voip/media/srtp.go:124-140 | A packet late by at most 32768 within a period is still placed |
| Srtp.SrtpContext.Protect | src/voip/media/srtp.go:72-95 | The bytes of the packet one by one, the payload under source and full index and the tag over the rollover counter, with the index that the updated state gives |
| Srtp.ProtectedIsSealed | src/voip/media/srtp.go:72-95 | A protected packet is its header, its payload under the vector of source and full index, and the tag |
| Srtp.SrtpContext.Unprotect | src/voip/media/srtp.go:97-122 | The new state and result of the specified opening, each error leaving the state the source leaves; an opened packet's payload is each byte under the key stream of its source and the receiver's full index |
| Srtp.OpenProtected | src/voip/media/srtp.go:72-122 | A receiver that places a packet opens it to the sent header and payload; an empty payload is an error |
| Srtp.PlacedOpened | src/voip/media/srtp.go:97-140 | A list of packets that are all placed is opened packet by packet to what was sent, and leaves the state of its indices |
| Srtp.SubsequenceOpened | src/voip/media/srtp.go:72-140 | The lossy law: whatever subsequence of a sender's run arrives in order with gaps below 32768, starting before the first wrap or where the receiver stands, is opened to exactly the packets sent |
| Srtp.StandingNext | src/voip/media/srtp.go:72-95 | Protecting the session's next packet moves sequence number and index on by exactly one, wraps included |
| VideoPipeline.Pipeline.Setup | src/voip/call/video/pipeline.go:53-80 | Sessions and counters start afresh while the depacketiser survives |
| VideoPipeline.Pipeline.FeedCaptured | src/voip/call/video/pipeline.go:82-117 | When it sends, one packet per payload with one timestamp on all, the marker on the last, sequence numbers and indices consecutive from where the session stood, every payload byte under its packet's own vector, and the session left standing behind the last; when it does not, nothing changes |
| VideoPipeline.FeedAll | src/voip/call/video/pipeline.go:82-117 | The sender's law: over any run of captures, sent or dropped, all packets are numbered and indexed consecutively, every payload byte on the wire is encrypted under its packet's own vector, and no key stream is used twice |
| VideoPipeline.Pipeline.HandleRelayData | src/voip/call/video/pipeline.go:119-156 | One packet changes the receiver and releases a frame exactly as specified |
| MediaWire.OwnPacketIgnored | src/voip/call/video/pipeline.go:119-135 | A packet with the receiver's own source changes nothing |
| VideoPipeline.PackAllRun | src/voip/call/video/pipeline.go:95-116 | The payloads of any list of sendable units release those units in order, from any state |
| VideoPipeline.DeliverFrame | src/voip/call/video/pipeline.go:119-156 | The placed packets of one frame release exactly one frame, at the marker, and empty the buffer |
| VideoPipeline.FrameIsStream | src/voip/call/video/pipeline.go:139-152 | The released bytes are the units behind four-byte start codes |
| VideoPipeline.SendAccessUnit | src/voip/call/video/pipeline.go:82-156 | The video law: an access unit of sendable units, sent through in order, releases exactly one frame with the same units, from any depacketiser state, and the ends agree again afterwards |
| Fft.SmallestFactor | src/voip/media/mlow/fft.go:23-37 | Terminates with the least divisor above one |
| Fft.Combine | src/voip/media/mlow/fft.go:54-75 | One output of a composite transform is the twiddled sum of the short ones, for any stride and cofactors |
| Fft.FftRec | src/voip/media/mlow/fft.go:39-76 | For every length and stride each output is the direct sum, and nothing outside its range is written |
| Fft.Cfft | src/voip/media/mlow/fft.go:78-83 | The whole transform is the direct Fourier sum |
| Fft.ThereAndBack | src/voip/media/mlow/fft.go:78-83 | Transforming back with the opposite sign returns every sample times the length |
| Lpc.StableIff | src/voip/media/mlow/lpc.go:286-331 | The predictor of any reflection coefficients passes the test if and only if every squared coefficient is at most the limit |
| Lpc.StableIsPredictor | src/voip/media/mlow/lpc.go:286-331 | Every filter that passes is the predictor of small reflection coefficients |
| Lpc.DownOfUp | src/voip/media/mlow/lpc.go:288-331 | Step-down undoes step-up wherever the divisor is not zero |
| Lpc.UpOfDown | src/voip/media/mlow/lpc.go:224-241 | Step-up undoes step-down |
| Lpc.Rc2a | src/voip/media/mlow/lpc.go:224-241 | The in-place loop that works inward from both ends is the step-up recursion |
| LpcMeaning.StepUpValue | src/voip/media/mlow/lpc.go:225-241 | At every z the stepped-up filter is the old one plus the coefficient times its mirror image |
| Lpc.LpcIsStable | src/voip/media/mlow/lpc.go:286-331 | The two-buffer loop is the stability test on every input, without a zero divisor |
| Lpc.BweExpand | src/voip/media/mlow/lpc.go:243-251 | Coefficient i is scaled by the i-th power |
| LpcMeaning.ExpandValue | src/voip/media/mlow/lpc.go:243-251 | At every z the expanded filter is the filter at the factor times z |
| Lpc.LpcStabilize | src/voip/media/mlow/lpc.go:333-347 | On every filter it ends by round 1000 with a stable one, and no earlier round was stable |
| LpcMeaning.ShrunkValue | src/voip/media/mlow/lpc.go:333-347 | What n rounds leave is, at every z, the given filter at the product of their factors times z |
| LspPolynomials.TransPoly | src/voip/media/mlow/lpc.go:426-434 | The in-place passes are the specified transform |
| LspPolynomials.TransExact | src/voip/media/mlow/lpc.go:426-434 | For every argument the transform turns a series of multiple-angle cosines into the same value as a polynomial in twice the cosine |
| LspPolynomials.Multiplied | src/voip/media/mlow/lpc.go:446-457 | Multiplying the trivial factor back in recovers the paired coefficients of the filter |
| LspPolynomials.InitPolys | src/voip/media/mlow/lpc.go:446-460 | Both polynomials are computed as specified, for any filter of even order |
| LspPolynomials.LspIdentity | src/voip/media/mlow/lpc.go:446-460 | Times the trivial factor and a power of z, each polynomial at z + 1/z is the filter plus or minus its mirror image |
| LspPolynomials.MirrorIsReciprocal | src/voip/media/mlow/lpc.go:446-460 | The mirror image is the filter at 1/z shifted to positive powers |
| RootSearch.EvalPoly | src/voip/media/mlow/lpc.go:436-444 | The loop evaluates the polynomial with the source's rounding |
| RootMeaning.EvalNear | src/voip/media/mlow/lpc.go:436-444 | Over the whole range of the table the fixed-point value is the polynomial's real value to within a bound that depends on the order alone |
| RootSearch.Bwexpander32 | src/voip/media/mlow/lpc.go:413-424 | Each coefficient is scaled by the running chirp, in place |
| RootMeaning.ChirpRounds | src/voip/media/mlow/lpc.go:413-424 | Each chirp is the one before times the first, rounded to the nearest 65536th |
| RootMeaning.RestartMeans | src/voip/media/mlow/lpc.go:545-553 | Restart n scales each coefficient by its chirp from 65536 - 2^n, rounding down |
| RootSearch.BisectKeeps | src/voip/media/mlow/lpc.go:501-515 | Three halvings keep the sign change, shrink the cell to an eighth up to rounding and count what they step over |
| RootSearch.Interpolated | src/voip/media/mlow/lpc.go:516-526 | Neither division is by zero and the step is from 0 to 33 |
| RootMeaning.StepIsLinear | src/voip/media/mlow/lpc.go:516-523 | The step is the zero of the line through the bracket's ends, rounded to the nearest |
| RootMeaning.FarStepIsLinear | src/voip/media/mlow/lpc.go:524-526 | Far from zero it is the quotient by a 32nd of the difference, rounded toward zero |
| RootSearch.Refine | src/voip/media/mlow/lpc.go:501-526 | The loops compute the bisection and the linear step of a cell that changes sign |
| RootSearch.Frequency | src/voip/media/mlow/lpc.go:495-528 | A root found in cell k lies in [256(k-1), 256k+1] and is at most 32767 |
| RootSearch.FoundOrdered | src/voip/media/mlow/lpc.go:490-566 | Cells never go back, so any two roots are in order up to one cell, and all lie in 0 to 32767 |
| RootMeaning.SecondRoot | src/voip/media/mlow/lpc.go:495-536 | A second root in one cell: by its number alone the polynomial at the cell's end is not positive or not negative, and not zero where the other one is |
| RootMeaning.LaterRoot | src/voip/media/mlow/lpc.go:495-536 | A root in a later cell: its polynomial is zero or changes sign across the cell |
| RootMeaning.FlatFilter | src/voip/media/mlow/lpc.go:462-567 | On the filter 1 with the source's cosine table the roots are in cells 43 and 86, at 10924 and 21846 |
| RootSearch.FoundUnique | src/voip/media/mlow/lpc.go:490-566 | At most one list of cells and frequencies meets the search's specification |
| RootSearch.A2Nlsf | src/voip/media/mlow/lpc.go:462-567 | For every filter of even order at least 2 the search ends, inside the cosine table, with every root in the first cell that the walk accepts (RootMeaning.SecondRoot and LaterRoot say when), for the filter widened as often as reported, or with even spacing after 16 restarts |
| FcbEnergy.EnergyPulse | src/voip/media/mlow/celp_enc.go:651-674 | What one signed pulse adds to the full quadratic form of any vector |
| FcbEnergy.TrialEnergy | src/voip/media/mlow/celp_enc.go:651-674 | With a pulse joining, the energy of every trial grows by a common amount and one that depends only on the distance |
| FcbSearch.BuildPhiFlip | src/voip/media/mlow/celp_enc.go:1286-1293 | The flipped table holds the even extension of the autocorrelation |
| FcbSearch.NextEnergy | src/voip/media/mlow/celp_enc.go:651-674 | The per-trial update computed from signs and distances is the growth of the quadratic form |
| FcbSearch.Advance | src/voip/media/mlow/celp_enc.go:651-674 | After each pulse every num[i] and den[i] is the correlation and energy of the chosen pulses plus one at i |
| FcbSearch.ScoreMeans | src/voip/media/mlow/celp_enc.go:172-177 | The match times the energy plus 1e-16 is the squared correlation |
| FcbSearch.CheckIfBetter | src/voip/media/mlow/celp_enc.go:461-469 | The threshold update keeps the first best pulse count so far |
| FcbSearch.CountMeans | src/voip/media/mlow/celp_enc.go:461-469 | The count maximises the match less its number times the price, strictly against every smaller one, no pulses counting as zero |
| FcbSearch.SmplFcbSearch | src/voip/media/mlow/celp_enc.go:608-707 | Each pulse is the first best trial on those before it, and for a price that is not negative the count returned is the smallest that maximises q_j - j * price, or 0 |
| FcbPositive.EnergyOfFiltered | src/voip/media/mlow/celp_enc.go:1276-1293 | The quadratic form of an autocorrelation is the energy of the filtered vector |
| FcbPositive.AutocorrelationPositive | src/voip/media/mlow/celp_enc.go:1276-1293 | So the form that the search divides by is never negative, on vectors of any length |
| NlsfStabilize.RoundsKeep | src/voip/media/mlow/synth.go:116-167 | No number of rounds changes the sum of the margins |
| NlsfStabilize.RoundKeeps | src/voip/media/mlow/synth.go:136-150 | A round takes from the neighbours what it gives and lifts the worst margin to its target |
| NlsfStabilize.RoundMoves | src/voip/media/mlow/synth.go:138-150 | In frequencies: the two beside the worst gap move apart by the same amount, one alone moves at an end of the band, no other moves |
| NlsfStabilize.MarginsSum | src/voip/media/mlow/synth.go:117-123 | Margins and least spacings add up to the whole band |
| NlsfStabilize.Settle | src/voip/media/mlow/synth.go:134-160 | The loop performs rounds until the first settled one, at most 1000 |
| NlsfStabilize.StabilizeNLSF | src/voip/media/mlow/synth.go:115-167 | The gaps of the result are those of the rounds; it is in order with every spacing met, the last included, exactly when the loop settled; a valid input is unchanged |
| VadNoise.SmplVadState.constructor | src/voip/media/mlow/vad.go:161-174 | The initial state: biases 50, 25, 16 and 12, levels of a hundred times the bias and their inverses, counter 15, all inside their bounds |
| VadNoise.SmplVadState.GetNoiseLevels | src/voip/media/mlow/vad.go:230-261 | On any non-negative energies the 32-bit and 16-bit arithmetic computes the specified update, and the bounds are kept |
| VadNoise.FixedWeight | src/voip/media/mlow/vad.go:247-252 | No product of the smoothing weight wraps or is cut to 16 bits |
| VadNoise.FixedInverse | src/voip/media/mlow/vad.go:253-256 | No product of the inverse update wraps or is cut |
| VadNoise.NextInverse | src/voip/media/mlow/vad.go:253-258 | The new inverse level lies between the old one and the inverse energy, in 1 to 2^31 - 1 |
| VadNoise.NextLevel | src/voip/media/mlow/vad.go:256-259 | The level stays in 1 to 0xFFFFFF |
| VadNoise.LevelIs | src/voip/media/mlow/vad.go:255-259 | The level is the whole inverse of the inverse, or 0xFFFFFF |
| VadNoise.SlowWhenLoud | src/voip/media/mlow/vad.go:239-253 | Energy above eight times the level moves the inverse a 512th of the way |
| VadNoise.QuickWhenQuiet | src/voip/media/mlow/vad.go:239-253 | Energy below the level moves it a 64th of the way |
| VadNoise.MiddleWeight | src/voip/media/mlow/vad.go:243-247 | In between the weight is 1024 times level over energy to within ten |
| VadNoise.FloorFades | src/voip/media/mlow/vad.go:232-236 | The least weight over the first thousand packets |
| VadNoise.RunStays | src/voip/media/mlow/vad.go:230-261 | Over any run on any non-negative energies levels and inverses stay in range, biases never change and the counter stays at most 1000 |
| VadNoise.EveryRun | src/voip/media/mlow/vad.go:161-261 | So from the initial state every level stays in 1 to 0xFFFFFF and every inverse in 1 to 2^31 - 1, for ever |
| VadNoise.NeverOvershoots | src/voip/media/mlow/vad.go:230-261 | Fed one energy for any number of packets a band moves toward it and never past it |
| IirFilters.BlockAr1Exact | src/voip/media/mlow/postfilter.go:148-164 | The five-wide block is five steps of the recurrence |
| IirFilters.BlockAr2Exact | src/voip/media/mlow/postfilter.go:106-131 | The four-wide block is four steps of the recurrence |
| IirFilters.Ar1Chunks | src/voip/media/mlow/postfilter.go:141-170 | Filtering two chunks with the carried state is filtering their concatenation |
| IirFilters.Ar2Chunks | src/voip/media/mlow/postfilter.go:100-139 | The same with the two carried values of the second-order filter |
| IirFilters.FiltAr1 | src/voip/media/mlow/postfilter.go:141-170 | Every output is its input less c1 times the output before it, from the carried state, for every length |
| IirFilters.FiltAr2 | src/voip/media/mlow/postfilter.go:100-139 | Every output is its input less c1 times the output before it and c2 times the one before that, from both carried values, for every length |
| IirFilters.PitchHpFilter | src/voip/media/mlow/pitch_enc.go:52-83 | Every output is the difference of its inputs plus 0.96 times the output before it, in place |
| CallState.CallInfo.ApplyTransition | src/voip/call/callstate.go:118-214 | It succeeds exactly on the allowed transitions and then changes the record as specified; otherwise nothing changes |
| CallScenarios.OutgoingCourse | src/voip/call/callstate.go:118-214 | A call placed, answered, connected and ended passes through its states and ends with its times, reason and length |
| CallScenarios.IncomingCourse | src/voip/call/callstate.go:118-214 | The same for a call answered here, held, taken back and muted |
| CallScenarios.Rejections | src/voip/call/callstate.go:118-214 | A call turned down by either side ends unaccepted and unconnected with length 0 |
| CallScenarios.Unmoved | src/voip/call/callstate.go:118-214 | For each state, the transitions that are refused and leave the record as it is |
| CallScenarios.MovesTo | src/voip/call/callstate.go:118-214 | Where the others lead |
| CallState.StepKeeps | src/voip/call/callstate.go:118-214 | One transition keeps the times in order, never changes one that is set, leaves Ended alone, and enters Active from outside only from Connecting |
| CallState.AlwaysConsistent | src/voip/call/callstate.go:118-214 | After any transitions at any times AcceptedAt, ConnectedAt and EndedAt are in order and the duration is 0 unless media connected |
| CallState.ConnectsOnce | src/voip/call/callstate.go:118-214 | Media connects at most once in the life of a call |
| CallState.EndedIsFinal | src/voip/call/callstate.go:118-214 | Ended is absorbing under any transitions |
| CallLifecycle.NextKeeps | src/voip/call/callmanager.go:100-247 | Every critical section keeps the manager's invariant |
| CallScenarios.ManagerCourse | src/voip/call/callmanager.go:100-247 | A call placed, sent, accepted and connected has one open loop; ended and cleaned up it has none, and its record its times and length |
| CallScenarios.IncomingManagerCourse | src/voip/call/callmanager.go:153-190 | An incoming call answered here connects with one loop, and a second connection changes nothing |
| CallScenarios.AcceptCourse | src/voip/call/callmanager_signaling.go:119-173 | An accepted call with a connection connects in the handler's second half |
| CallScenarios.ManagerCases | src/voip/call/callmanager.go:100-247 | Steps that find nothing to do, and those that end the current call |
| CallLifecycle.EveryRun | src/voip/call/callmanager_relay.go:25-104 | In every interleaving from the start: times in order, at most one send loop, started only by calls that got media, and none open once all calls ended and clean-up is done |
| CallLifecycle.EndedForever | src/voip/call/callmanager_signaling.go:97-285 | No step of any run touches a call that has ended |
| CallLifecycle.NoLoopAgain | src/voip/call/callmanager_media.go:55-89 | Once a clean-up has run after every call ended, no loop exists again before a new call |

## Left out

- Raw bits at the end of the range coder's buffer (BitsN, EncodeUint, BitLogp, ICDF tables): the frame encoder writes none and trims the packet to a prefix.
- RangeEncoding.RangeEncoder.Encode: totals above 2^23 and empty shares are left out; both can bring the width to zero, on which the source's renormalisation does not end.
- RangeEncoding.RangeEncoder.EncodeCDF: a symbol whose two entries do not increase is left out, for the same reason.
- RangeEncoding.RangeEncoder.EncodeRawSymbol: more than 23 bits are left out, for the same reason.
- RangeDecoding.RangeDecoder.DecodeRawSymbol: more than 23 bits are left out, as in the encoder.
- RangeDecoding.RangeDecoder.DecodeCDF: tables with entries outside their two ends are left out; a negative share or one past the total would be passed on.
- Config 1: the decoder reads a count table where the encoder always writes the triangular prior, and the live path decodes config 0 only.
- The low-rate table and the FEC rate of the pulse search, and its pitch-sharpened beam form, which is switched off.
- The contents of the embedded seeds: tables are parameters with a well-formedness predicate, and the pitch tables and the memory window are built from one such value instead of being decoded twice from the seed.
- FrameCoder.DecodeFrame: models the packet down to its parameters; reconstruction, synthesis and post-filters are not part of this model, nor is splitContainer with its redundancy blocks.
- PulseReader.DecodeSmplPulses: fixed at config 0 with four subframes of 80 samples, the only geometry the live path uses.
- GainCoder.DecodeSmplGains: the residual of a subframe without pulses is not sent, so it is compared only where there are pulses.
- FcbSearch.SmplFcbSearch: over the reals and at the main rate; it needs a form that is not negative, which FcbPositive proves of the autocorrelations the source passes.
- Fft.FftRec: the roots of unity are parameters with the laws of a complex exponential instead of floating-point sines.
- Lpc.LpcStabilize: over the reals, as are the spacing repair and the filters; rounding is not modelled.
- RootSearch.A2Nlsf: over unbounded integers, with the cosine table as a parameter of 129 entries; 32-bit overflow of the polynomials is not modelled. That the search converges is not claimed.
- NlsfStabilize.StabilizeNLSF: the loop may stop at its round limit; the result says so and nothing is promised about the order then.
- Srtp.SrtpContext.Unprotect: the receiver drops the authentication tag without checking it, as the source does; the cipher and the tag are uninterpreted functions, and key derivation is not modelled.
- Srtp.ReceiverStepIff: reordering across a sequence wrap is placed wrongly by the source; the exact condition is stated.
- VideoPipeline.SendAccessUnit: the relay delivers every packet in order; loss and reordering inside a frame are covered only by the depacketiser's behaviour on single payloads. The relay's queue length and connection state are parameters.
- Rtp.EncodeHeader: headers whose source count is not the length of the source list are left out; no code builds one, and the source writes out of bounds or leaves a gap on it.
- Rtp.HeaderRoundTripIff: DecodeRtpPacket and the random starting numbers of a session are parameters or left out.
- CallLifecycle.NextKeeps: the manager's lock sections are steps on values and calls are numbered, so object identity and what a handler does outside the lock (sockets, relays, events, codecs) are not modelled; the clock and the success of sending are parameters.
- Clean-up after a rejection whose transition fails, and late accepts that reconnect relays after the end: the claim is about the send loop and the call state.
- Group calls, participants, listeners, STUN, signalling nodes, device and file access: plumbing without a crisp property.
- Voicing decisions, pitch estimation, bitrate control, spectral quantiser distances, noise generation: tuned constants.
