# Verified model of the receiver's codecs, parsers and queues

This project models, in Dafny, the parts of the receiver where an error would be hard to see from outside,
and proves what they are for. Run `dafny verify dfyconfig.toml`.

* **The ALAC decoder** (`deps/alac`), layer by layer. `BitStream`/`BitBuffers`: every reader is a view of one
  big-endian bit string. `AdaptiveGolomb`, `GolombFormat`, `GolombCodes`, `AdaptiveBlocks`, `GolombBlock`,
  `GolombDecoder`: the adaptive Golomb decoder with its running mean, escapes and zero runs, and the encoder it
  inverts, with widths, mean and moduli of its own. `Predictor`, `PredictorDecoder`, `PredictorSteps`,
  `PredictorBlock`: the sign-LMS predictor, its 4-tap and 8-tap fast paths, the integrator, the analysis they undo,
  and what one step does, written out. `Matrix`, `Frames`, `Unmixing`: un-mixing and the strided output
  buffers. `FrameFormat`, `FrameElements`: what `Decode` makes of a frame at a bit depth of 16, as functions of
  the bits; `FrameReaders`, `AlacDecoder`: `Decode` itself over its buffers, tied to those functions;
  `FrameEncoder`, `FrameLossless`, `MonoLossless`: ghost encoders and whole-frame losslessness; `FrameAsides`: fill
  and data stream elements in front; `FrameOutcome`: which frames the source leaves undefined; `Agreement`,
  `FrameDetermined`, `FramePastEnd`: which bits a frame depends on, and which frames are read past the packet;
  `FrameExample`: two frames at those edges; `FrameRefusals`: frames without samples of their own;
  `AlacWrapper`: the cookie, `configure` and `decode_frame`.
* **Binary property lists.** `Plist`, `PlistGraph`, `PlistParser`: the parser returns the one tree its object
  graph unfolds to, and accepts exactly the graphs that are good and at most 16 references deep; `PlistExample`: a
  string shorter than its count. `PlistFormat`: the format from the writing side, every type and width, read back;
  `BplistWriter`, `BplistTrees`, `SetupReply`: what the control code writes is.
* **mDNS.** `DnsNames`, `DnsPointers`, `MdnsPackets`, `MdnsFormat`, `MdnsCodec`: two independent readers of compressed
  names (sections 3.1 and 4.1.4 of RFC 1035), the back-patching writer, the parser, the round trip, and messages of any
  records byte by byte.
* **RTSP.** `RtspMessage`, `RtspFormat`, `ReceiveLoop`, `RtspExample`, `RtspStream`, `RtspSession`: requests from the
  writing side, read back; Content-Length framing (section 12.14 of RFC 2326); and when the receive loop's behaviour
  is independent of how the stream is cut.
* **The PCM queue.** `PcmQueue`, `OutputQueue`: packet thread, output worker and control thread as steps each under
  a lock or of one shared read, in every interleaving.

Code that works in place is a class or a method over arrays and fields; its `ensures` ties it to a function of
its inputs, and the theorems are lemmas about that function. Machine integers are written out: `Wrap32` and
`Wrap16` are two's-complement wrap-around, `Shr` is the arithmetic shift (floor division), `Scale` the left
shift.

The model's outcome is `Undefined` where the source stores outside one of its buffers, or uses the result of a shift C
does not define (by 32 or more, or by less than 0). `FrameOutcome` lists the stores and shifts of the routines, and
`FrameOutcome.UndefinedExactly` says which frames take one that is not legal. Reading behind the packet is not counted
there: such a read gives whatever stands in that memory, and the frame theorems are stated over it.

## What turned out not to hold

Each with the exact condition and an input.

* `dyn_decomp` gives back a block whose values fit in `maxSize` bits exactly when it avoids -2^31, which only `maxSize`
  32 allows and which comes back as 0 (`GolombBlock.DecodedExactly`, `GolombBlock.SmallestResidualLost`).
* The mid channel `floor((rL + (m - r)R) / m)` fits in the 17 bits of a frame for all 16-bit pairs exactly when
  `-m <= 2r <= 3m` (`Matrix.MidFitsExactly`; else the pair of `Matrix.MidTooWide`). Frames are lossless for every `r`
  all the same: an encoder may reduce it to 17 bits, and the 16-bit stores undo that (`FrameEncoder.FrameRestored`).
* Un-mixing at full 32-bit width: the pair arithmetic gives all pairs back exactly when `mixres` or `mixbits` is 0 or
  bytes are shifted off (`Unmixing.PairsBackExactly`; for every other factor and shift, `Matrix.ShiftedLost` builds a
  pair that is lost). `unmix32` stores all pairs whole, whatever the shift buffer holds, exactly when `mixres` is 0 or
  bytes are shifted off: otherwise it ors in what stands in that buffer (`Unmixing.StoredForEveryBuffer`,
  `Unmixing.StoredExactly`). The source's comment warns of the first and an assertion left in a comment rules both out.
* The source does not test a count stated in a header against the frame length. A raw pair with a larger count is always
  stored past the buffers (`FrameOutcome.OverlongRaw`). A compressed channel is so exactly when its residual codes give
  more samples than a frame holds before they break off; otherwise the frame is refused
  (`FrameOutcome.OverlongChannel`; a frame, `FrameExample.OverlongHarmless`).
* What a frame decodes to need not depend on the packet alone, since `Decode` tests the end only between elements and
  behind entropy-coded channels. It is determined by the bits in front of its final cursor
  (`FrameDetermined.CursorDetermines`), so by the packet when the cursor stays within it; a frame that ends in a raw
  element is determined by the packet only then (`FramePastEnd.RawDetermined`). An accepted frame with samples whose
  cursor is more than a byte past the end ends in a raw element (`FramePastEnd.PastByRaw`). A packet of three bytes is
  accepted with a full frame of samples (`FrameExample.ThreeBytesAccepted`), and a raw frame cut anywhere behind its
  first byte is completed from memory (`AlacWrapper.ShortPacketAccepted`).
* A compressed frame is lossless exactly when the residual codes of its channels begin in time: `dyn_decomp` takes the
  size of the packet in bits modulo 2^32. Packets below 2^29 bytes meet that (`AlacWrapper.SmallPacketLossless`); in one
  of 2^29 bytes no encoded pair is accepted (`AlacWrapper.WrappedPacketRejected`).
* The receive loop is independent of chunking, into chunks of 1 to 8192 bytes, exactly for streams in which no head's
  `header_end + 4 + content_length` wraps 64 bits with bytes behind it (`ReceiveLoop.ChunkingIndependence`; a stream
  where it does, `RtspExample.WrappedStreamDepends`). It dispatches for ever exactly when it reaches a head for which
  that sum is 2^64 itself (`ReceiveLoop.DivergesExactly`; a stream, `RtspExample.ExactStreamDiverges`). A complete head
  with a malformed start line is never discarded, since the loop ignores `consumed` on failure
  (`ReceiveLoop.MalformedHeadBlocks`).
* A frame the audio callback accepted is counted as delivered exactly when the running flag is set as it is accepted
  and no stop clears it before the worker looks again (`PcmQueue.AcceptedCounted`; a run where one does,
  `PcmQueue.AcceptedUncounted`).
* `read_name` and `read_name_at` agree exactly when the walk over the message from the name on, a position for every
  label and pointer, has at most 128 positions if and only if it has at most eight pointers and no label above 63 bytes
  (`DnsNames.AgreeExactly`; messages on which they differ, `DnsNames.LongLabelDiffers`, `DnsNames.NinePointersDiffer`,
  `DnsNames.ManyStepsDiffer`).
* The property list parser's test of a length adds in 64 bits: an ASCII string is accepted with fewer bytes than its
  count exactly when `offset + count` wraps, and then holds the rest of the file (`Plist.StringLength`; a file,
  `PlistExample.ShortStringAccepted`). A data block that passes the test that way is copied from a range of more
  than 2^63 bytes, and a UTF-16 string reserves about as much; the model calls both `Oversized` (`Plist.DataLength`,
  `Plist.WideLength`).

## Model

| member | source | states |
|---|---|---|
| Words.ShiftPairExtends | deps/alac/dp_dec.c:87-93 | the pair of shifts by 32 - chanbits is sign extension to chanbits |
| BitBuffers.BitBuffer.Read | deps/alac/ALACBitUtilities.c:42-62 | returns the next n <= 16 bits of the one bit string, moves on by exactly n |
| BitBuffers.BitBuffer.ReadSmall | deps/alac/ALACBitUtilities.c:67-86 | the same for n <= 8 through a 16-bit window |
| BitBuffers.BitBuffer.ReadOne | deps/alac/ALACBitUtilities.c:91-105 | the same for one bit |
| BitBuffers.BitBuffer.Peek | deps/alac/ALACBitUtilities.c:109-113 | the same bits without moving |
| BitBuffers.BitBuffer.Advance | deps/alac/ALACBitUtilities.c:162-170 | the position grows by n |
| BitBuffers.BitBuffer.Rewind | deps/alac/ALACBitUtilities.c:174-207 | the position becomes max(start, position - n), so it undoes Advance |
| BitBuffers.BitBuffer.Write | deps/alac/ALACBitUtilities.c:212-249 | the n <= 32 low bits of the value are read back there, every other bit of the buffer stays |
| BitBuffers.BitBuffer.ByteAlignZero | deps/alac/ALACBitUtilities.c:148-158 | aligns to the next byte, the bits in between zero, all others kept |
| GolombCodes.GetStreamBits | deps/alac/ag_dec.c:136-168 | the numbits <= 32 bits at a bit offset, through four or five bytes |
| GolombCodes.DynGet32 | deps/alac/ag_dec.c:220-270 | the symbol and the position of the sample code in the bit string, escape included |
| GolombCodes.DynGet | deps/alac/ag_dec.c:171-217 | the same for the run code with its 16-bit escape |
| GolombCodes.SampleRoundTrip | deps/alac/ag_dec.c:220-270 | a sample code written with any parameter is read back, moving by its exact length |
| GolombCodes.RunRoundTrip | deps/alac/ag_dec.c:171-217 | a run code written with any modulus is read back, moving by its exact length |
| AdaptiveGolomb.Lead | deps/alac/ag_dec.c:91-103 | the number of leading zeros of a 32-bit word |
| AdaptiveGolomb.MeanBounded | deps/alac/ag_dec.c:325-329 | with pb <= 127 the mean stays at most 2^25 and no kept value wraps 32 bits |
| AdaptiveGolomb.RunBitsRange | deps/alac/ag_dec.c:333-336 | the parameter of a zero run is between 2 and 8 |
| GolombFormat.WidthExactly | deps/alac/ag_dec.c:304-308 | the width of a sample code is kb or the one j with 512 * (2^j - 3) <= mean < 512 * (2^(j+1) - 3), whichever is less |
| GolombFormat.MeanIs | deps/alac/ag_dec.c:325-329 | the mean behind a value n is 65535 above 65535, else pb * (n + z) + mean - pb * mean / 512, no register wrapping |
| GolombFormat.RunWidthIs | deps/alac/ag_dec.c:336 | the width of a run code for every interval of the mean |
| GolombFormat.RunSpanIs | deps/alac/ag_dec.c:337 | the modulus of a run is 2^min(k, kb) - 1 |
| AdaptiveBlocks.BlockRoundTrip | deps/alac/ag_dec.c:299-354 | for any inverse pair of symbol reader and writer, the adaptive loop gives the block back, with zero runs, the run cap and the mode offset in lockstep |
| GolombBlock.EntropyRoundTrip | deps/alac/ag_dec.c:272-362 | every residual block in range, encoded with widths, means, runs and moduli of the format at any position of any stream, is decoded, consuming exactly its bits |
| GolombBlock.SurvivorsExact | deps/alac/ag_dec.c:312-319 | a block comes back unchanged if and only if it avoids -2^31 |
| GolombBlock.DecodedExactly | deps/alac/ag_dec.c:272-362 | what decoding an encoded block gives is the block if and only if it avoids -2^31 |
| GolombBlock.DecodedInTime | deps/alac/ag_dec.c:303-306 | an encoded block is decoded if and only if every sample code of it begins in front of the limit |
| GolombBlock.SmallestResidualLost | deps/alac/ag_dec.c:312-319 | a packed block of that one value is decoded, successfully, to zero, whatever parameters and bytes follow |
| GolombDecoder.DynDecomp | deps/alac/ag_dec.c:272-362 | for every block whose samples have room in the buffer, dyn_decomp stores the decoded samples and nothing else, moves the cursor, and returns the status of the block decoder, its limit taken in 32 bits |
| Predictor.PredictorInversion | deps/alac/dp_dec.c:55-381 | for every signal in chanbits, tap count, scale and coefficients the synthesis undoes the analysis and ends with the same adapted coefficients |
| Predictor.ResidualsFit | deps/alac/dp_dec.c:55-381 | residuals stay in the width of the signal |
| Predictor.ChannelInversion | deps/alac/ALACDecoder.cpp:451-460 | the two-stage mode undoes both analyses |
| Predictor.IntegratorClosedForm | deps/alac/dp_dec.c:74-95 | output j of the 31 path is the sum of the residuals up to j, reduced to chanbits |
| PredictorSteps.RunsExactly | deps/alac/dp_dec.c:97-381 | samples and taps are those of the synthesis if and only if each sample is the residual, the oldest sample and the rounded weighted sum, and the taps move against or with the sign of their gap from the last one down to where the written-out error is used up |
| PredictorSteps.StepUnique | deps/alac/dp_dec.c:335-381 | sample and taps behind a residual are the only ones such a step allows |
| PredictorBlock.UnpcBlock | deps/alac/dp_dec.c:55-381 | every dispatch path, in place or not, stores the samples and taps of that synthesis, reached by such steps, and leaves other slots alone |
| PredictorBlock.Four | deps/alac/dp_dec.c:105-188 | the unrolled 4-tap loop, early exits included, refines the general synthesis |
| PredictorBlock.Eight | deps/alac/dp_dec.c:189-334 | the unrolled 8-tap loop refines the general synthesis |
| PredictorBlock.General | deps/alac/dp_dec.c:335-381 | the general adaptive loop is the general synthesis |
| PredictorDecoder.SignOfInt | deps/alac/dp_dec.c:47-53 | the shift-and-or sign is the sign |
| Matrix.UnmixInvertsMix | deps/alac/matrix_dec.c:44-56 | un-mixing gives back both samples of every pair of up to 24 bits, every shift and factor |
| Matrix.MidFitsExactly | deps/alac/matrix_dec.c:44-56 | when the mid channel of all 16-bit pairs fits in 17 bits |
| Matrix.MidTooWide | deps/alac/matrix_dec.c:44-56 | for every other factor, a 16-bit pair whose mid channel needs more |
| Matrix.BackExactly | deps/alac/matrix_dec.c:252-278 | all pairs of 32-bit samples come back through 32-bit registers if and only if the factor or the shift is 0 |
| Matrix.ShiftedLost | deps/alac/matrix_dec.c:252-278 | for every other factor and shift, a pair that does not come back |
| Unmixing.NoOverlap | deps/alac/matrix_dec.c:169-170 | the shifted sample and its low bytes do not overlap |
| Unmixing.Unmix16 | deps/alac/matrix_dec.c:60-90 | lays the un-mixed 16-bit frames into the strided buffer and nothing else |
| Unmixing.Unmix20 | deps/alac/matrix_dec.c:95-146 | the same for 20 bits left-aligned in three bytes |
| Unmixing.Unmix24 | deps/alac/matrix_dec.c:151-249 | the same for 24 bits, low bytes put back |
| Unmixing.Unmix32 | deps/alac/matrix_dec.c:257-308 | the same for 32 bits |
| Unmixing.CopyPredictorTo20 | deps/alac/matrix_dec.c:349-365 | the single-channel copy stores the left-aligned samples |
| Unmixing.CopyPredictorTo24 | deps/alac/matrix_dec.c:312-347 | the single-channel copy, with and without low bytes |
| Unmixing.CopyPredictorTo32 | deps/alac/matrix_dec.c:367-390 | the single-channel copy, with and without low bytes |
| Unmixing.Restored16 | deps/alac/matrix_dec.c:60-90 | mixed 16-bit samples stand in their frame unchanged |
| Unmixing.Restored20 | deps/alac/matrix_dec.c:95-146 | mixed 20-bit samples stand in the top of their bytes |
| Unmixing.Restored24 | deps/alac/matrix_dec.c:151-249 | mixed 24-bit samples come back with 0, 8 or 16 bits shifted off |
| Unmixing.Restored32 | deps/alac/matrix_dec.c:257-308 | 32-bit samples come back when bytes are shifted off, nothing is mixed, or the mix is unshifted and the low bytes are zero |
| Unmixing.MonoRestored20 | deps/alac/matrix_dec.c:349-365 | 20-bit samples of a single channel stand in the top of their bytes |
| Unmixing.MonoRestored24 | deps/alac/matrix_dec.c:312-347 | 24-bit samples of a single channel come back with 0, 8 or 16 bits shifted off |
| Unmixing.MonoRestored32 | deps/alac/matrix_dec.c:367-390 | 32-bit samples of a single channel come back with 0, 8 or 16 bits shifted off |
| Unmixing.PairsBackExactly | deps/alac/matrix_dec.c:252-278 | which factors, shifts and shifted-off bytes give all 32-bit pairs back, low bytes aside: an if-and-only-if |
| Unmixing.StoredExactly | deps/alac/matrix_dec.c:257-308 | which of them make the 32-bit routine store every pair whole, for given contents of the shift buffer |
| Unmixing.StoredForEveryBuffer | deps/alac/matrix_dec.c:257-308 | it does so for every shift buffer if and only if nothing is mixed or bytes are shifted off |
| Frames.OtherSlotsKept | deps/alac/matrix_dec.c:60-90 | slots of other channels and of frames past the last keep their value |
| FrameElements.ElementMoves | deps/alac/ALACDecoder.cpp:218-628 | an element the loop goes on after ends no earlier than its body began, holds at most a frame, and fits in the channels left |
| FrameElements.LoopEnds | deps/alac/ALACDecoder.cpp:218-628 | for any bits the loop terminates with one of two statuses and at most a frame of samples |
| FrameElements.ZeroFilled | deps/alac/ALACDecoder.cpp:602-628 | the fill makes the first frames zero from the next channel on and changes no other slot |
| FrameRefusals.HeaderRefused | deps/alac/ALACDecoder.cpp:384-398 | non-zero unused bits, or three bytes shifted off, are refused where they are read, with nothing stored |
| FrameRefusals.UnknownRefused | deps/alac/ALACDecoder.cpp:562-569 | coupling and program config elements are refused and the channels filled with zeros |
| FrameRefusals.PairForOne | deps/alac/ALACDecoder.cpp:378-382 | a pair where one channel is asked for is no error and gives zeros |
| FrameRefusals.EndedEarly | deps/alac/ALACDecoder.cpp:585-592 | an end element in front of every channel is no error and leaves the buffer as it was |
| FrameFormat.AdvanceWraps | deps/alac/ALACDecoder.cpp:439-444 | the bits shifted off are skipped by their product in 32 bits |
| FrameReaders.ElementHeader | deps/alac/ALACDecoder.cpp:384-411 | the header fields of the bit string and both early exits |
| FrameReaders.ReadSettings | deps/alac/ALACDecoder.cpp:419-437 | mode, scale, factor, tap count and coefficients of the bit string |
| FrameReaders.FillElement | deps/alac/ALACDecoder.cpp:642-657 | skips exactly the counted bytes, or fails past the end |
| FrameReaders.DataStreamElement | deps/alac/ALACDecoder.cpp:663-689 | the same with its alignment flag |
| AlacDecoder.AlacDecoder.DecodeChannel | deps/alac/ALACDecoder.cpp:446-460 | entropy decoding and prediction of one channel into its mix buffer |
| AlacDecoder.AlacDecoder.Decode | deps/alac/ALACDecoder.cpp:173-628 | at a bit depth of 16, for every frame that takes no illegal store or shift: status, cursor, sample count and sample buffer are those of the frame's bits, and every store is in bounds |
| FrameOutcome.UndefinedExactly | deps/alac/ALACDecoder.cpp:218-628 | a frame is undefined if and only if the loop, followed from element to element over the bits, reaches one among whose listed stores and shifts there is a store past a frame length or a shift of less than 0 or more than 31 |
| FrameOutcome.PredictorLegal | deps/alac/dp_dec.c:55-381 | the listed steps of one or two predictor stages are legal if and only if the stated condition on mode, taps, scale, width and count holds |
| FrameOutcome.ChannelLegal | deps/alac/ALACDecoder.cpp:441-460 | the listed steps of entropy decoding and prediction are legal if and only if the model restores the channel or ends with an error |
| FrameOutcome.OverlongRaw | deps/alac/ALACDecoder.cpp:482-520 | every frame that starts with a raw pair whose stated count exceeds the frame length is undefined |
| FrameOutcome.OverlongChannel | deps/alac/ALACDecoder.cpp:439-460 | with such a count a compressed channel is undefined if more samples than a frame holds are decoded, and else ends with an error behind them |
| FrameExample.OverlongHarmless | deps/alac/ALACDecoder.cpp:406-460 | a compressed pair with such a count whose residuals break off after one sample is refused with kALAC_ParamError |
| FrameExample.ThreeBytesAccepted | deps/alac/ALACDecoder.cpp:482-520 | a packet of 3 bytes is accepted with a full frame of samples, and what they are is not determined by it |
| FrameDetermined.CursorDetermines | deps/alac/ALACDecoder.cpp:173-628 | inputs that agree on the bits in front of the final cursor decode to the same outcome |
| FramePastEnd.RawDetermined | deps/alac/ALACDecoder.cpp:482-520 | a frame that ends in a raw element is determined by the bytes of the packet if and only if its cursor ends within them |
| FramePastEnd.PastByRaw | deps/alac/ALACDecoder.cpp:173-628 | an accepted frame with samples whose cursor ends more than 8 bits past the packet ends in a raw element |
| FrameEncoder.ChannelRead | deps/alac/ALACDecoder.cpp:446-460 | a channel encoded with any taps, mode and factor is read back whole |
| FrameEncoder.FrameRestored | deps/alac/matrix_dec.c:60-90 | the 16-bit stores restore a pair whose mid channel was reduced to 17 bits, for every shift and factor |
| FrameLossless.PairLossless | deps/alac/ALACDecoder.cpp:378-560 | every stereo block under every choice of mixing, taps, coefficients, scale, mode, factor and bytes shifted off: if the residual codes begin in time, status 0, same count, exactly the original samples less the bytes shifted off, the rest of the buffer untouched; else kALAC_ParamError |
| FrameLossless.RawLossless | deps/alac/ALACDecoder.cpp:482-520 | escape frames: status 0, same count, exactly the original samples, the rest of the buffer untouched |
| MonoLossless.SingleLossless | deps/alac/ALACDecoder.cpp:220-376 | as for a compressed pair, for a single or LFE channel under every choice of taps, coefficients, scale, mode, factor and bytes shifted off |
| MonoLossless.RawSingleLossless | deps/alac/ALACDecoder.cpp:294-320 | as for an escape pair, for a single or LFE channel of samples in the width left |
| FrameAsides.BehindAsides | deps/alac/ALACDecoder.cpp:642-689 | a frame behind any number of fill and data stream elements decodes as if it stood there alone |
| AlacWrapper.CookieRoundTrip | src/audio/alac_decoder.cpp:26-41 | Init reads back pb = 40, mb = 10, kb = 14 and the frame length, refused exactly when out of range |
| AlacWrapper.AlacWrapper.Configure | src/audio/alac_decoder.cpp:56-82 | accepts one or two channels of 16 bits with 1 to 65536 samples a frame, and nothing else; a refusal leaves the earlier configuration in force |
| AlacWrapper.AlacWrapper.DecodeFrame | src/audio/alac_decoder.cpp:84-129 | for packets of every size and any memory behind them: the packet's samples and count, or rejection, empty and too large packets included |
| AlacWrapper.FrameGiven | src/audio/alac_decoder.cpp:94-129 | samples are given out if and only if the packet is neither empty nor of 2^32 bytes or more, its status is 0 and it holds a sample; and which |
| AlacWrapper.CompressedPacketLossless | src/audio/alac_decoder.cpp:84-129 | a packet carrying an encoded pair, whatever fill and data elements stand before it and whatever bytes follow, decodes to its samples interleaved, less the bytes shifted off, if the residual codes begin in time, and is rejected if not |
| AlacWrapper.SmallPacketLossless | src/audio/alac_decoder.cpp:84-129 | below 2^29 bytes every such packet decodes, to exactly its samples when no bytes are shifted off |
| AlacWrapper.WrappedPacketRejected | deps/alac/ag_dec.c:295-306 | of 2^29 bytes every such packet is rejected |
| AlacWrapper.RawPacketLossless | src/audio/alac_decoder.cpp:84-129 | a packet carrying an escape pair, whatever surrounds it, decodes to its samples interleaved |
| AlacWrapper.MonoPacketLossless | src/audio/alac_decoder.cpp:84-129 | as for a compressed pair, for a single channel, whose samples come in order |
| AlacWrapper.SmallMonoPacketLossless | src/audio/alac_decoder.cpp:84-129 | below 2^29 bytes every such packet decodes, to exactly its samples when no bytes are shifted off |
| AlacWrapper.RawMonoPacketLossless | src/audio/alac_decoder.cpp:84-129 | as for an escape pair, for a single channel |
| AlacWrapper.PacketDetermined | src/audio/alac_decoder.cpp:101-119 | a packet within whose bytes the cursor ends decodes alike whatever stands in the memory behind it |
| AlacWrapper.ShortPacketAccepted | src/audio/alac_decoder.cpp:101-119 | an escape frame cut anywhere behind its first byte is accepted, with what stands behind the packet for the missing samples |
| PlistParser.ReadBytes | src/plist/plist.cpp:16-22 | read_be: the big-endian value in 64 bits, stopping at the end |
| PlistParser.BinaryPlistParser.ParseAt | src/plist/plist.cpp:299-462 | parse_object is the recursive function on the object graph, errors included, lengths tested in 64 bits |
| PlistParser.BinaryPlistParser.ParseRoot | src/plist/plist.cpp:235-264 | parse is header, trailer, offset table and the top object |
| PlistGraph.AcceptsExactly | src/plist/plist.cpp:299-462 | an object parses if and only if every path from it is at most 16 references long and meets only good objects |
| PlistGraph.Acyclic | src/plist/plist.cpp:299-304 | no object that parses refers back to itself over any path |
| PlistGraph.ParsedUnfolds | src/plist/plist.cpp:402-457 | the value is the unfolding of the graph, dictionaries bound by first entries |
| PlistGraph.UnfoldingUnique | src/plist/plist.cpp:402-457 | there is no other unfolding |
| PlistGraph.ParseIsUnfolding | src/plist/plist.cpp:235-264 | for every input below 2^63 bytes: when parsing succeeds, and with which one value |
| Plist.StringLength | src/plist/plist.cpp:382-389 | an ASCII string is accepted short if and only if offset plus count wraps 64 bits, whole if and only if its bytes are there |
| Plist.DataLength | src/plist/plist.cpp:361-372 | a data block is read if and only if its bytes are there, and passes the test without them if and only if the sum wraps |
| Plist.WideLength | src/plist/plist.cpp:390-399 | a UTF-16 string is read if and only if its bytes are there |
| PlistFormat.LeafFound | src/plist/plist.cpp:318-400 | null, both booleans, integers and reals of every width, data, ASCII and UTF-16 strings with counts of every width are found with their value, whatever surrounds them |
| PlistFormat.ArrayRead | src/plist/plist.cpp:402-422 | an array of up to 4096 references of any width from 1 to 8 bytes is found |
| PlistFormat.DictRead | src/plist/plist.cpp:424-457 | a dictionary of such references, its keys in front of its values |
| PlistFormat.CountExactly | src/plist/plist.cpp:276-297 | a count is read if and only if it stands in the marker or is a whole integer behind it |
| PlistFormat.ArrayExactly | src/plist/plist.cpp:402-412 | an array is found if and only if it has at most 4096 references and all are there |
| PlistFormat.DictExactly | src/plist/plist.cpp:424-434 | the same for a dictionary |
| PlistFormat.NumberExactly | src/plist/plist.cpp:325-358 | integers of any width and reals of 4 or 8 bytes are found if and only if their bytes are there |
| PlistFormat.MarkerRefused | src/plist/plist.cpp:361-461 | the error for a missing count of each type, and for every unknown marker |
| PlistFormat.DepthRefused | src/plist/plist.cpp:299-303 | beyond 16 references nothing is parsed |
| PlistFormat.KeyRefused | src/plist/plist.cpp:436-446 | a dictionary ends at a key that is no string |
| PlistFormat.ReferenceExactly | src/plist/plist.cpp:305-309 | a reference is bad if and only if there is no such object or its offset is not in the data |
| PlistFormat.OpenExactly | src/plist/plist.cpp:235-262 | a file is opened if and only if header, widths, number of objects and the whole offset table are in order |
| PlistFormat.FileRead | src/plist/plist.cpp:235-264 | offsets of any width, the top object and the width of references are found in a file of any body |
| PlistExample.ShortStringAccepted | src/plist/plist.cpp:382-389 | a 51-byte file with a string of count 2^64 - 1 parses, to the bytes behind the count |
| BplistWriter.LengthRead | src/raop/raop_control.cpp:89-102 | the parser reads back every length below 2^16 |
| BplistWriter.DocumentRead | src/raop/raop_control.cpp:989-1005 | the parser finds every object of a written document under its index |
| BplistTrees.TreeRoundTrip | src/raop/raop_control.cpp:84-119 | every tree at most 16 references deep, laid out and written, parses to itself |
| BplistTrees.SetupReplyParses | src/raop/raop_control.cpp:953-1006 | for all ports the reply holds both ports and the type, and nothing else |
| SetupReply.StreamSetupResponseBody | src/raop/raop_control.cpp:953-1006 | the loops write exactly that document |
| SetupReply.AppendU64 | src/raop/raop_control.cpp:84-88 | the eight big-endian bytes of the value |
| DnsNames.AgreeExactly | src/discovery/dnssd_advertiser.cpp:343-389 | the two name readers agree on a message if and only if, on the walk over its labels and pointers, at most 128 positions goes with at most eight pointers and labels of at most 63 bytes |
| DnsNames.LongLabelDiffers | src/net/dacp_client.cpp:112-155 | a message with a 64-byte label, on which they differ |
| DnsNames.NinePointersDiffer | src/discovery/dnssd_advertiser.cpp:343-389 | a message with nine pointers, on which they differ |
| DnsNames.ManyStepsDiffer | src/net/dacp_client.cpp:112-155 | a message of 129 steps, on which they differ |
| DnsNames.NameReadBack | src/discovery/dnssd_advertiser.cpp:323-341 | both readers invert put_name: on every name up to empty and overlong labels, exactly on normal ones |
| DnsPointers.PointerFollowed | src/discovery/dnssd_advertiser.cpp:343-389 | labels and a pointer are read as the labels and what is found at its 14-bit target, by both readers |
| DnsPointers.NinthRefused | src/discovery/dnssd_advertiser.cpp:343-389 | behind eight pointers read_name follows none |
| DnsPointers.EmptyLeftOut | src/discovery/dnssd_advertiser.cpp:331 | the writer leaves out empty labels wherever they stand |
| DnsPointers.LongCut | src/discovery/dnssd_advertiser.cpp:332-334 | and cuts every other one to its first 63 bytes |
| MdnsCodec.ReadNameLoop | src/discovery/dnssd_advertiser.cpp:343-389 | read_name ends on every pointer graph with that name and offset |
| MdnsCodec.ReadNameAtLoop | src/net/dacp_client.cpp:112-155 | read_name_at ends with that name and offset |
| MdnsCodec.PacketWriter.WriteName | src/discovery/dnssd_advertiser.cpp:323-341 | appends the labels of the name, empty ones left out, long ones cut |
| MdnsCodec.PacketWriter.AddSrv | src/discovery/dnssd_advertiser.cpp:481-495 | appends the record with its RDLENGTH patched to the size of its data |
| MdnsCodec.PacketWriter.AddPtr | src/discovery/dnssd_advertiser.cpp:469-479 | the same for a PTR record |
| MdnsCodec.PacketWriter.AddTxt | src/discovery/dnssd_advertiser.cpp:497-508 | the same for a TXT record |
| MdnsCodec.PacketWriter.AddAddress | src/discovery/dnssd_advertiser.cpp:510-522 | the same for an address record |
| MdnsCodec.TxtBytes | src/discovery/dnssd_advertiser.cpp:452-467 | the bytes of the items' character strings (MdnsFormat.TxtRead says which) |
| MdnsCodec.PacketWriter.BuildResponse | src/discovery/dnssd_advertiser.cpp:524-554 | the packet is the response of its records |
| MdnsCodec.ParseMessage | src/net/dacp_client.cpp:163-228 | the parser's loops compute the records of the message |
| MdnsPackets.HeadRead | src/discovery/dnssd_advertiser.cpp:438-450 | the parser reads back owner, type and RDLENGTH, and that is the size of the data |
| MdnsPackets.ResponseParsed | src/net/dacp_client.cpp:163-228 | any list of records in range is recovered record by record |
| MdnsPackets.AdvertisementParsed | src/discovery/dnssd_advertiser.cpp:524-554 | both instances, both (host, port) pairs and the host address are recovered |
| MdnsFormat.ResponseIs | src/discovery/dnssd_advertiser.cpp:438-554 | header, types 12, 33, 16 and 1, classes, time to live and lengths of a response, byte by byte |
| MdnsFormat.MessageParsed | src/net/dacp_client.cpp:163-228 | any message, with questions and with records of any type and class over three sections, is parsed to its pointers, services and addresses in order |
| MdnsFormat.BrokenParsed | src/net/dacp_client.cpp:185-197 | a message that breaks off within a record is parsed up to the record before |
| MdnsFormat.TxtRead | src/discovery/dnssd_advertiser.cpp:452-467 | a reader of character strings finds every item in order, cut into strings of 255 bytes and a last one, or one empty string for no items |
| MdnsFormat.ShortItemsRead | src/discovery/dnssd_advertiser.cpp:452-467 | items of at most 255 bytes are found as they are |
| RtspMessage.ParsedStable | src/rtsp/rtsp_message.cpp:34-77 | a request that parses is parsed the same when bytes follow, unless its length wraps |
| RtspMessage.ConsumedExactly | src/rtsp/rtsp_message.cpp:68-76 | it takes its whole head and body unless the length wraps, and then less than its head |
| RtspFormat.RequestRead | src/rtsp/rtsp_message.cpp:34-77 | every request, header names in any case and any blanks around names and values, is parsed to its three words, the last value of each name in small letters, and the body of the length its last content-length names |
| RtspFormat.RequestWaits | src/rtsp/rtsp_message.cpp:34-72 | no proper prefix of a request is parsed or refused |
| RtspFormat.ShortStartRefused | src/rtsp/rtsp_message.cpp:47-53 | a start line of fewer than three words is refused whatever follows |
| RtspFormat.EmptyHeadRefused | src/rtsp/rtsp_message.cpp:41-44 | an empty head is refused with nothing taken |
| RtspFormat.NoiseIgnored | src/rtsp/rtsp_message.cpp:56-60 | a header line without a colon changes nothing |
| RtspSession.TryParseRequest | src/rtsp/rtsp_message.cpp:34-77 | request, consumed bytes and failures of try_parse_request, header loop included |
| RtspSession.LastNamed | src/session/session.cpp:189-199 | the remote is what the last requests with a DACP-ID and with an Active-Remote say |
| ReceiveLoop.ReceiveIsDrain | src/session/session.cpp:173-208 | a settled stream is dispatched alike, with the same bytes left, however it is cut |
| ReceiveLoop.ChunkingIndependence | src/session/session.cpp:173-208 | for any way of reading header blocks, all cuttings into chunks of 1 to 8192 bytes dispatch the same requests and leave the same bytes if and only if the stream is settled |
| RtspStream.StreamServed | src/session/session.cpp:173-208 | any list of requests, cut in any way, is dispatched request by request as written, and the beginning of the next is kept |
| ReceiveLoop.DivergesExactly | src/session/session.cpp:184-190 | the loop dispatches for ever if and only if it reaches a head whose end, 4 and content length sum to exactly 2^64 |
| RtspExample.ExactStreamDiverges | src/rtsp/rtsp_message.cpp:68-71 | a concrete stream dispatched for ever |
| ReceiveLoop.MalformedHeadBlocks | src/session/session.cpp:184-189 | behind a malformed head nothing is dispatched any more |
| RtspExample.WrappedStreamDepends | src/rtsp/rtsp_message.cpp:68-71 | a concrete stream that depends on its cutting |
| RtspSession.Connection.HandleClient | src/session/session.cpp:173-208 | the two loops dispatch those requests, leave those bytes, and remember the remote the requests name |
| PcmQueue.StepKeepsInv | src/audio/raop_audio_decryptor.cpp:258-336 | every step of every thread keeps the queue bounded, each frame in exactly one place, deliveries in order and justified, counters in step |
| PcmQueue.DeliveredInOrder | src/audio/raop_audio_decryptor.cpp:288-336 | in every interleaving: at most 256 queued, delivered frames an ordered duplicate-free part of those enqueued, every frame accounted for once |
| PcmQueue.DroppedWhenFull | src/audio/raop_audio_decryptor.cpp:292-295 | in any run a frame is dropped if and only if another is enqueued on 256, and it is the oldest |
| PcmQueue.RetriedFirst | src/audio/raop_audio_decryptor.cpp:323-330 | after a refusal the next frame offered is the refused one while running |
| PcmQueue.NothingLost | src/audio/raop_audio_decryptor.cpp:308-336 | undisturbed by the control thread, nothing taken from the queue is discarded or passes unaccepted |
| PcmQueue.AcceptedCounted | src/audio/raop_audio_decryptor.cpp:323-336 | in any run, an accepted frame is delivered next if and only if the flag was set and no stop clears it in between; else it is discarded |
| PcmQueue.AcceptedUncounted | src/audio/raop_audio_decryptor.cpp:331-334 | a run in which an accepted frame is not counted as delivered |
| PcmQueue.SilentCounted | src/audio/raop_audio_decryptor.cpp:323-336 | without a callback a frame is not offered, and delivered next if and only if the flag is set and no stop clears it in between |
| PcmQueue.OfferedRunning | src/audio/raop_audio_decryptor.cpp:323-324 | in any run a frame is offered only behind a look at the flag that found it set |
| PcmQueue.ControlOrder | src/audio/raop_audio_decryptor.cpp:39-46 | a new callback starts the worker, its removal stops it, and a stop joins the worker before it empties the queue |
| PcmQueue.StopDiscards | src/audio/raop_audio_decryptor.cpp:267-321 | in any run, what is queued as a stop clears the flag is discarded or dropped by the time the worker ends, and none of it delivered |
| OutputQueue.OutputQueue.EnqueuePcm | src/audio/raop_audio_decryptor.cpp:288-297 | the critical section is the enqueue step on queue and state |
| OutputQueue.OutputQueue.TakeFrame | src/audio/raop_audio_decryptor.cpp:311-321 | the worker takes the oldest frame, or ends |
| OutputQueue.OutputQueue.ClearOutputQueue | src/audio/raop_audio_decryptor.cpp:282-286 | every queued frame is discarded |
| OutputQueue.OutputQueue.OfferFrame | src/audio/raop_audio_decryptor.cpp:323-330 | a refusal is counted and the frame kept in hand |

## Left out

- AlacDecoder.AlacDecoder.Decode: bit depth 16 only, the one the wrapper configures; the un-mixers and copies of the
  other widths are modelled on their own (`Unmixing`). `mActiveElements` is written and never read.
* At that depth the shift buffer is never read; it is a buffer of its own here, where the source overlays it on the
  predictor's. `1 << (denshift - 1)` is not counted as a shift where its result is not used.
* Memory behind a packet is a sequence of any bytes, and zeros behind that; the theorems hold for every such sequence.
* `BitBufferUnpackBERSize` has no caller and is not modelled; `set_standard_ag_params`, `Zero24` and `Zero32` would add
  only easy members.
* `lead` and `lg3a` are modelled on the values they are called with.
* The source repeats its un-mixing loops for `mixres` and `bytesShifted` zero or not; the model tests them inside one
  loop a width.
* Property lists are below 2^63 bytes, so that only the sums with a count read from the data can wrap; those are taken
  modulo 2^64. Reals keep their bits; their conversion to `double` is not modelled, nor is the diagnostic printer.
* Class and TTL of an mDNS record are read past, as the parser does; the dotted text of an address is kept as its four
  bytes. Queries, known answers, sockets and the Windows DNS-SD calls are not part of this model.
* The receive loop's socket is a sequence of chunks and its `handle` call the list of dispatched requests; responses,
  routing, the fallback host and the query address are not modelled.
* The PCM queue's shared flags are read and written in single steps, although the source reads `output_running_` and
  `on_audio_` outside the lock; one control thread is assumed. Zeroing of the statistics by `reset` and
  `configure_crypto` is not modelled, nor is the time the worker sleeps. A refusal and its counter are one step.
* Decryption, FairPlay, hashing, RTP, HTTP, XML bodies, volume and progress are not part of this model.
