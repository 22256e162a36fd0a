# A verified model of the RTMP-to-Agora gateway

The gateway takes H.264 and AAC messages from an RTMP session and sends them on as an Annex B byte
stream and as Opus packets. This project models its four cores in Dafny and proves what they are
for. `dafny verify dfyconfig.toml` checks everything.

- **Video.** `Chain` is the scatter/gather reader over nginx buffer chains, `VideoRewriter` the
  conversion as the gateway runs it: cursors, one fixed output buffer, flags, loops. `Avcc` states
  the same computation on flat bytes, with every capacity check and failing read; each method is
  proved equal to its flat counterpart, so nothing depends on how the bytes are split. `ByteStream`
  is a receiver of Annex B streams, and `Conversion` connects the two: which NAL units a message
  turns into and where insertions go, said without flags, and exactly when the receiver gets them
  back. `NalLists` is length-prefixed framing, `ParameterSets` what a codec header contributes,
  well-formed or not, `Truncation` what comes out when it does not fit, and `Refusal` when no buffer
  is returned at all.
- **Pipeline.** `Pipeline` is a state machine with one program counter for each of the nginx, high
  video, low video and audio threads and one step per shared access. `Delivery` holds its
  invariants; `Shutdown` the results about whole runs: what the streams contain, how long the
  sleeps are, that a disconnect ends every thread; `LowStream` which frames the low stream holds;
  `Gate` that the gate holds the audio back and always opens; `Progress` that what is queued is
  sent. `WorkQueue` holds the queue operations, which the pipeline shares, and the
  queue class; `Context` is the class with the numeric fields, whose methods are steps of the
  controller models `JitterBuffer`, `FrameRate`, `Decimation` and `Pacing`; `Buffering` connects
  its buffering phase with the steps of the pipeline.
- **Audio.** `Opus` re-frames 1024-sample frames into 960-sample packets through a carry buffer;
  `Adts` assembles ADTS frames in a reused buffer and writes their headers.
- **Arguments.** `Slashes` is the in-place rewriting of `%2F`; `Arguments` the substring search for
  `key=value` pairs; `AppId` composes the two; `Strings` is `strstr` and C strings.

`Bytes`, `Arithmetic` and `Wrappers` hold what the others share.

The main results, among the rows of the table below:

- video: `VideoRewriter.AvccToAnnexB`, `ByteStream.ScanUndoesFraming`,
  `ParameterSets.AppendSucceedsExactlyWhen`, `Conversion.InsertionsGoWhereTheyShould`,
  `Conversion.ConversionIsComplete`, `Conversion.AnnexBRoundTrip`,
  `Truncation.ConvertedMeansWholeMessage`;
- pipeline: `Shutdown.HighStreamIsPrefix`, `Shutdown.LowStreamIsOrdered`,
  `LowStream.LowStreamIsChosen`, `Shutdown.PacesInEveryRun`, `Shutdown.PacingInEveryRun`,
  `Gate.GateOpens`, `Gate.GateHoldsAudio`, `Shutdown.DisconnectEndsAllThreads`,
  `Progress.ItemsAreSent`;
- controllers: `JitterBuffer.GrowthExactlyWhen`, `JitterBuffer.PhaseDoublesExactlyWhen`,
  `FrameRate.UsableExactlyWhen`, `FrameRate.PredictionIsFrameRate`,
  `Decimation.NeverAheadExactlyWhen`;
- audio: `Opus.LosslessExactlyWhen`, `Opus.ReframingLosesNothing`, `Adts.HeaderRoundTrip`,
  `Adts.DecoderGetsEveryFrame`;
- arguments: `Slashes.ReplaceForwardSlash`, `Slashes.DecodeUndoesEncode`,
  `Arguments.SearchFindsPair`, `Arguments.ArgumentRoundTrip`, `AppId.AppIdRoundTrip`.

Properties that the code does not have in general are stated with the exact condition under which
it has them, and a concrete input outside of it:

- a picture message is not converted if its last NAL is a single byte, since `ngx_custom_copy` fails
  at the end of the chain even for zero bytes (`Conversion.OutcomeWithRoom`,
  `Conversion.EndOfSequenceFails`);
- the frame-rate prediction drops to zero when a window ends on a frame counter that wrapped to
  zero (`FrameRate.UsableExactlyWhen`, `FrameRate.FullWindowBreaksPrediction`);
- the size of the jitter buffer can wrap when the maximum exceeds 32768
  (`JitterBuffer.GrowthExactlyWhen`, `JitterBuffer.DoublingMayShrink`);
- the low stream runs ahead when a low frame is left over by a clearing of the counters
  (`Decimation.NeverAheadExactlyWhen`, `Decimation.ClearingWhileSending`);
- an argument is hidden by an earlier value that contains its key (`Arguments.SearchFindsPair`,
  `Arguments.ValueHidesKey`);
- the value of an argument stays inside the caller's array exactly if it is no longer than it, and
  leaves a C string there exactly if it is shorter; for `enc` that array has two characters
  (`Arguments.CopyFitsExactlyWhen`, `Arguments.TextFitsExactlyWhen`, `Arguments.EncryptionFlag`).

Where code and comments differ, the code is modelled: libagorac/agorac.cpp:413-430 speaks of three
seconds without frames, while the code compares milliseconds with three times the predicted frame
rate; and it doubles the buffer only from the second buffering phase on.

## Model

| member | source | states |
|---|---|---|
| Chain.Cursor.constructor | ngx_agora_helper.c:255 | a cursor starts at the first byte of the first buffer: what is left to read is the concatenation of the chain |
| Chain.Cursor.Normalise | ngx_agora_helper.c:94-99 | skipping past exhausted and empty buffers changes nothing about the bytes still to be read |
| Chain.Cursor.Gather | ngx_agora_helper.c:84-119 | the reading loop splits the bytes left into what it has read and what follows, and stores exactly what it has read, on success and on failure |
| Chain.Cursor.Copy | ngx_agora_helper.c:75-121 | however the chain is split, a read of n bytes succeeds exactly when the cursor is not at the end of the chain and n bytes are left; it then delivers the first n of them, leaves the rest, and stands on an unread byte or at the end |
| Chain.ReadLocal | ngx_agora_helper.c:298-301 | a read into a local variable gives the next n bytes or fails, and fails at the end of the chain even for n = 0 |
| Chain.Skip | ngx_agora_helper.c:158-160 | a read without destination skips n bytes or fails under the same condition |
| Bytes.BigEndianRoundTrip | ngx_agora_helper.c:303-304 | the number read from a length field of any width is the number that was written into it |
| Bytes.ToBigEndianRoundTrip | ngx_agora_helper.c:303-304 | every field of w bytes is the w-byte encoding of the number read from it, which is below 256^w |
| ByteStream.RenderIsStream | ngx_agora_helper.c:367-376 | writing units one by one, with the long start code for the first one and the inserted ones, gives the stream described from the front |
| ByteStream.UnitEnds | ngx_agora_helper.c:367-390 | the next start code ends a unit exactly where its body ends, if and only if the body contains no 000000 or 000001 and does not end in a zero byte |
| ByteStream.ScanUndoesFraming | ngx_agora_helper.c:367-390 | scanning a framed list of units returns their bodies in order if and only if every one of them is clean (for the last one a trailing zero is harmless) |
| ByteStream.StreamLength | ngx_agora_helper.c:367-390 | the exact length of the output: 4 + len per inserted unit, 3 + len per copied one, and one more byte if the first unit is a copied one |
| VideoRewriter.Buffer.Fill | ngx_agora_helper.c:386-390 | a read into the free part of the output appends the bytes read; a failing one leaves what was written before |
| VideoRewriter.AppendAudNal | ngx_agora_helper.c:62-73 | the delimiter is appended completely or, without six free bytes, not at all |
| VideoRewriter.AppendOne | ngx_agora_helper.c:176-209 | one parameter set, over any splitting of the header chain, is the flat copy of its bytes behind a long start code; failures leave the partial output they leave there |
| VideoRewriter.AppendCounted | ngx_agora_helper.c:174-210 | the signed 8-bit countdown handles as many sets as the unsigned value of the count byte says, through the wrap-around |
| VideoRewriter.AppendCountAndSets | ngx_agora_helper.c:162-219 | a count byte and that many sets; only the first count is masked to five bits |
| VideoRewriter.AppendParameterSets | ngx_agora_helper.c:122-226 | append_sps_pps depends only on the concatenated bytes of the codec header, on success and on failure |
| VideoRewriter.InsertBefore | ngx_agora_helper.c:327-357 | which insertions are made in front of a NAL, failed ones tolerated, and what the two flags become |
| VideoRewriter.CopyNal | ngx_agora_helper.c:359-390 | both capacity checks and the failing read, in the order of the code; otherwise start code, first byte and the remaining bytes are appended |
| VideoRewriter.ConvertBody | ngx_agora_helper.c:314-390 | a NAL whose type has been read is dropped, copied or ends the function as its flat counterpart says |
| VideoRewriter.ConvertNal | ngx_agora_helper.c:298-390 | one pass of the NAL loop over a chain is one pass over the flat bytes |
| VideoRewriter.ConvertNals | ngx_agora_helper.c:297-400 | the NAL loop terminates and returns what the flat loop returns |
| VideoRewriter.AvccToAnnexB | ngx_agora_helper.c:228-400 | the whole conversion, over every splitting of the message and of the codec header, every message and every buffer size, returns the flat outcome and never writes outside the buffer |
| Avcc.AppendSpsPps | ngx_agora_helper.c:122-226 | on every path, failing ones included, the output grows and never passes its end |
| Avcc.Insert | ngx_agora_helper.c:327-357 | insertions, failing ones included, never pass the end of the output |
| Avcc.NalBody | ngx_agora_helper.c:320-390 | a NAL that is skipped or copied never makes the output pass its end |
| Avcc.NalStep | ngx_agora_helper.c:298-390 | every pass that goes on consumes input and keeps the output within its capacity; a pass that ends the function returns no buffer |
| Avcc.NalLoop | ngx_agora_helper.c:297-400 | the output never exceeds its capacity |
| Avcc.Convert | ngx_agora_helper.c:228-400 | a returned buffer is no longer than the output buffer, for every message and codec state |
| NalLists.EncodedFront | ngx_agora_helper.c:298-304 | reading the first length field and NAL of a list of length-prefixed NALs |
| NalLists.EncodingIsInjective | ngx_agora_helper.c:298-304 | a message has one reading as a list of NALs only |
| ParameterSets.AppendNalMeaning | ngx_agora_helper.c:176-209 | one set is copied if and only if its bytes are there and it fits; without them exactly the start code is left behind |
| ParameterSets.AppendNalsMeaning | ngx_agora_helper.c:174-210 | the same for a counted list of sets: whatever was found is written, and the copy succeeds if and only if all of it could be read and fits |
| ParameterSets.AppendSpsPpsMeaning | ngx_agora_helper.c:122-226 | for every codec header, truncated ones included: if they fit, exactly the sets found in it are written, sequence before picture parameter sets |
| ParameterSets.ConfigurationIsRead | ngx_agora_helper.c:122-226 | the sets found in a well-formed configuration record are all its sequence and picture parameter sets, in order |
| ParameterSets.ReadIsConfiguration | ngx_agora_helper.c:122-226 | a header that can be read to the end is a well-formed configuration record, with those sets |
| ParameterSets.AppendSucceedsExactlyWhen | ngx_agora_helper.c:122-226 | append_sps_pps succeeds if and only if the header is a well-formed configuration record and its sets fit |
| Conversion.InsertMeaning | ngx_agora_helper.c:327-357 | with room, the insertions in front of a NAL are the delimiter and the parameter sets the flags call for, whatever the codec header |
| Conversion.StepSkips | ngx_agora_helper.c:306-325 | empty NALs and types 7 to 9 are consumed and leave the output and the flags alone |
| Conversion.StepCopies | ngx_agora_helper.c:327-390 | a kept NAL is appended behind its insertions, with the right start code, and only it is consumed |
| Conversion.LoopWritesUnits | ngx_agora_helper.c:297-400 | the loop as a whole: if its NALs with their insertions fit, it writes exactly those units behind what was there, or fails if the last NAL is a single byte |
| Conversion.OutcomeWithRoom | ngx_agora_helper.c:228-400 | with room for the stream, the outcome of every picture message under every codec header is the complete stream of the kept NALs (those whose first byte modulo 32 is not 7, 8 or 9) with their insertions, or NGX_ERROR exactly if the last NAL is a single byte |
| Conversion.ConvertedHasRoom | ngx_agora_helper.c:361-383 | a returned buffer with anything copied in it is never completely full |
| Conversion.StepIsFramed | ngx_agora_helper.c:298-390 | a pass that goes on has read one length-prefixed NAL, followed by more input if the NAL is a single byte |
| Conversion.ConvertedIsFramed | ngx_agora_helper.c:297-400 | a returned buffer means that the message consists, to its last byte, of length-prefixed NALs, the last not a single byte |
| Conversion.FlagsAdvance | ngx_agora_helper.c:327-357 | the two flags say: a picture NAL has been copied; an IDR slice has been copied and no non-IDR slice since |
| Conversion.SkippedNalsDoNotMatter | ngx_agora_helper.c:306-325 | removing the NALs that are not kept changes nothing about the units |
| Conversion.InsertionsGoWhereTheyShould | ngx_agora_helper.c:306-357 | the flag-driven insertions are the declarative ones, read off the first bytes of the kept NALs: the two bytes 09 f0 as one delimiter, directly before the first whose first byte modulo 32 is 1, 5 or 6; parameter sets before one where it is 5 exactly when that is the first such NAL or one with 1 stands between it and every earlier one |
| Conversion.ConversionIsComplete | ngx_agora_helper.c:228-400 | for every picture message and codec header the outcome is the complete stream if and only if the last NAL is not a single byte and the stream leaves a byte of the buffer free |
| Conversion.OneByteNalSpoilsMessage | ngx_agora_helper.c:80-82 | a message that ends in a one-byte NAL is never converted, whatever the buffer and the codec header |
| Conversion.EndOfSequenceFails | ngx_agora_helper.c:80-82 | a concrete message, ending in an end-of-sequence NAL, on which the conversion returns the error |
| Conversion.AnnexBRoundTrip | ngx_agora_helper.c:228-400 | the Annex B round trip, under every codec header: scanning the output for start codes yields the kept NALs in order with the delimiter and the parameter sets in their places, both said in terms of first bytes, if and only if all of them are clean, in particular under section 7.4.1 of H.264; the length of the output is exact |
| ParameterSets.AppendSpsPpsWritesPart | ngx_agora_helper.c:122-226 | whether it fits or not, a copy of the parameter sets writes a front of the sets found in the header, and nothing else |
| Truncation.InsertWritesPatch | ngx_agora_helper.c:327-357 | the insertions of a NAL: the delimiter if and only if it is due and fits, and a front of the parameter sets, the whole of them if they are due and fit |
| Truncation.StepWritesPatch | ngx_agora_helper.c:298-390 | a pass of the loop that goes on has skipped one NAL or written it behind its start code and such insertions |
| Truncation.ConvertedMeansWholeMessage | ngx_agora_helper.c:228-400 | whatever the message, the codec header and the size of the buffer, a returned buffer means that the whole message was read as NALs, and holds all of them that are kept, in order, each behind its start code and behind insertions only where they go, complete if they fit and cut off otherwise; with room for everything it is the stream of the units |
| Refusal.NoCodecIsIgnored | ngx_agora_helper.c:246-258 | without a codec context or a codec header, without H.264 or with an announced length of zero, whatever arrives is ignored |
| Refusal.OtherMessages | ngx_agora_helper.c:260-283 | a message that ends before its packet type, or a picture that ends inside its composition time, is an error; one that is no picture, the codec header itself above all, is ignored |
| Refusal.CutMessage | ngx_agora_helper.c:297-400 | a picture message cut inside or right behind a length field is ignored, and one cut inside a NAL is an error, even if that NAL would not have been copied; what came before is lost in both cases |
| Refusal.TooLongIsIgnored | ngx_agora_helper.c:361-390 | a last NAL that alone is longer than the output buffer is ignored even if its bytes are missing |
| Refusal.DeltaSlice | ngx_agora_helper.c:228-400 | a concrete message, byte by byte: a delta slice gets a delimiter behind the long start code and a short one of its own |
| Opus.AudioContext.GetNextPacket | ngx_agora_helper.c:511-540 | the packet is the carry followed by the front of the input, the rest of the input is carried over; without input the packet is the front of the carry |
| Opus.AudioContext.EncodeOpus | ngx_agora_helper.c:541-549 | one packet goes to the encoder, and the new carry, per frame of 1024 samples |
| Opus.AudioContext.FlushEncodeOpus | ngx_agora_helper.c:551-563 | a second packet goes to the encoder exactly if the carry fills it; the carry count is then reset |
| Opus.AudioContext.FrameDecoded | ngx_agora_helper.c:646-655 | encoding and flushing a decoded frame is one push of the frame model |
| Opus.EncodeLosesNothing | ngx_agora_helper.c:525-537 | encoding loses, doubles and reorders nothing |
| Opus.FlushLosesNothing | ngx_agora_helper.c:551-563 | the unconditional reset of the carry loses nothing if and only if the carry is at most one packet |
| Opus.PushStep | ngx_agora_helper.c:646-655 | one frame: packets, carry, and exactly when bytes are lost |
| Opus.RunLosesNothing | ngx_agora_helper.c:541-563 | for any frame and packet size of which the difference divides the packet, no run loses a byte, and the sizes follow from the number of frames |
| Opus.LosslessExactlyWhen | ngx_agora_helper.c:541-563 | no run loses anything if and only if the excess of a frame over a packet divides the packet |
| Opus.ReframingLosesNothing | ngx_agora_helper.c:541-563 | for 1024 and 960 samples: packets and carry are the input, there are n + n/15 packets, and 64 * (n mod 15) samples per channel are carried |
| Adts.ParseAacHeader | ngx_agora_helper.c:682-736 | a configuration is accepted only from four bytes or more, with an object type of 1 to 4 and a sampling frequency index below 15 |
| Adts.HeaderRoundTrip | ngx_agora_helper.c:843-850 | reading the 56 bits of the header as ISO/IEC 14496-3 lays them out gives back profile, sampling frequency index, the low three bits of the channel configuration and the 13-bit frame length, and the fixed fields |
| Adts.ParseReadsConfig | ngx_agora_helper.c:682-736 | the parser reads the fields of every AudioSpecificConfig and refuses exactly object types 0 and 31 and index 15; extended object types become type 2 |
| Adts.FrameIsComplete | ngx_agora_helper.c:789-850 | a stored frame is the header and the message from offset 2, cut at 2048 bytes (of a message of one byte or none it is a front of the header), and announces its own length if and only if the chain holds the announced number of bytes, or more for the largest frame, which announces 2043 |
| Adts.FrameWithoutHeader | ngx_agora_helper.c:821-839 | without a parsable AAC header the message, as far as it fits, stands behind what the first five bytes of the buffer held |
| Adts.DecoderGetsEveryFrame | ngx_agora_helper.c:755-860 | over any run of messages, malformed ones included: each message of an AAC codec with a non-empty AAC header that is no codec header and has 2 to 2043 bytes gives the decoder exactly one frame, in order, one such message behind; without a parsable AAC header it starts with the first five bytes of the frame before it |
| Adts.StaysOneBehind | ngx_agora_helper.c:776-803 | one message: either it has a frame, which then waits behind the others, or it changes nothing |
| Adts.AudioSender.FlushAudio | ngx_agora_helper.c:663-679 | a waiting frame goes to the decoder whole, and the buffer is empty afterwards |
| Adts.AudioSender.CopyPayload | ngx_agora_helper.c:821-830 | the chained payload is stored in one piece, as far as it fits, whatever the chain |
| Adts.AudioSender.StoreFrame | ngx_agora_helper.c:818-852 | the message is put behind five free bytes and the ADTS header, if there is one, over them; the mismatch at line 852 is dead code |
| Adts.AudioSender.SendAudio | ngx_agora_helper.c:755-860 | every message advances the assembly by one step, and one that is no AAC frame of 2 to 2043 bytes under an AAC header changes nothing; the checks at lines 805 and 812 are dead code |
| Adts.ReadAacHeader | ngx_agora_helper.c:682-736 | the parser depends only on the concatenated bytes of the AAC header |
| Slashes.ReplaceThenDecode | ngx_agora_helper.c:868-889 | replacing the leftmost escape first does not change the simultaneous replacement: the new slash takes part in no match |
| Slashes.DecodedHasNone | ngx_agora_helper.c:868 | no escape is left |
| Slashes.DecodeUndoesEncode | ngx_agora_helper.c:863-892 | decoding undoes writing '/' as '%2F' exactly for the texts that did not contain '%2F' |
| Slashes.ReplaceOnce | ngx_agora_helper.c:870-885 | one pass, through the cleared temporary buffer, replaces the leftmost escape in place |
| Slashes.ReplaceForwardSlash | ngx_agora_helper.c:863-892 | the loop terminates and leaves the simultaneous left-to-right replacement in the buffer, with no escape in it |
| Arguments.FindArgEnd | ngx_agora_helper.c:1131-1141 | the end of an argument is the next ampersand or the end of the text |
| Arguments.GetArgValue | ngx_agora_helper.c:1143-1163 | into every array that is no shorter than the value: the value is copied to the front and nothing else changes; on failure nothing is written |
| Arguments.CopyFitsExactlyWhen | ngx_agora_helper.c:1160 | for lists over the gateway's keys the copy stays inside the caller's array if and only if the value of the first pair with the key is no longer than it, however long the other arguments are |
| Arguments.AbsentKeyCopiesNothing | ngx_agora_helper.c:1149-1152 | for an absent key an array of any size is large enough |
| Arguments.TextFitsExactlyWhen | ngx_agora_helper.c:1160 | behind the copy an array that ended in a null holds a C string if and only if the value is shorter than it |
| Arguments.EncryptionFlag | ngx_agora_helper.c:906-995 | the two-character array for enc takes enc=1 as a text, enc=10 without its null, and does not take enc=true |
| Arguments.MatchInPart | ngx_agora_helper.c:1149 | no match of a key crosses a separator that the key does not contain |
| Arguments.SearchFindsPair | ngx_agora_helper.c:1149 | the substring search finds the pair of a key if and only if no earlier pair mentions the key in its key or value |
| Arguments.SearchFails | ngx_agora_helper.c:1149-1152 | if no pair mentions the key there is no match at all |
| Arguments.ValueOfPair | ngx_agora_helper.c:1153-1162 | from the right match the value is exactly the one of the pair, an empty one counting as a failure |
| Arguments.KeysDoNotOverlap | ngx_agora_helper.c:951-1067 | no key the gateway asks for is part of another one |
| Arguments.ArgumentRoundTrip | ngx_agora_helper.c:1131-1163 | for every list of pairs over the keys the gateway uses, with values free of '&' and of key texts, the value of the first pair with the key is returned, and there is a failure exactly for an absent key or an empty value |
| Arguments.ValueHidesKey | ngx_agora_helper.c:1149-1160 | a concrete list in which a value that contains a key hides the argument with that key |
| Strings.CopyLeavesText | ngx_agora_helper.c:1160 | a text copied over the front of a null-terminated array leaves a C string there if and only if it is shorter than the array |
| AppId.ReadAppId | ngx_agora_helper.c:930-962 | searching and rewriting one after the other: a zeroed array of 1024 characters that is longer than the value ends up holding the decoded app id as a C string, or an empty one if there is none |
| AppId.AppIdRoundTrip | ngx_agora_helper.c:951-962 | an app id given with its slashes escaped, anywhere in the arguments, comes out as it was if and only if it contains no escape itself |
| JitterBuffer.RunGrows | libagorac/helpers/utilities.cpp:118-135 | in every run, unless a doubling can overflow, the size is initial * 2^k, the initial size or below twice the maximum, and the last doubling started below the maximum, so the number of doublings is logarithmic |
| JitterBuffer.SmallMaximum | libagorac/helpers/context.h:50 | with a maximum of at most 32768 no doubling overflows 16 bits |
| JitterBuffer.FirstNeverDoubles | libagorac/helpers/utilities.cpp:120-125 | the first buffering phase never doubles |
| JitterBuffer.FirstOverflow | libagorac/helpers/utilities.cpp:127 | if some size below the maximum overflows when doubled, there is a first one, reached by doublings that do not |
| JitterBuffer.GrowthExactlyWhen | libagorac/agorac.cpp:448-450 | the size is a power of two times the initial size in every run if and only if no size that may be doubled overflows 16 bits |
| JitterBuffer.DoublingMayShrink | libagorac/helpers/context.h:50 | a concrete run with a maximum of 50000 in which the doubled size wraps to a smaller one |
| JitterBuffer.DoublesExactlyWhen | libagorac/helpers/utilities.cpp:120-134 | below the maximum the size is doubled in a run if and only if some buffering phase comes within the time window after the end of the one before it; until then the size is the initial one |
| JitterBuffer.PhaseDoublesExactlyWhen | libagorac/helpers/utilities.cpp:118-135 | in every run, whatever was doubled before: a phase doubles the size modulo 65536 if and only if the size is below the maximum and the phase is not the first and began within the time window after the end of the one before it |
| JitterBuffer.BelowMaximum | libagorac/helpers/utilities.cpp:130-134 | as long as the size is below the maximum every phase has been counted and the end of the last one stored |
| JitterBuffer.WaitsMeans | libagorac/helpers/utilities.cpp:85-104 | the waiting in numbers: at most 200 rounds, each with the pipeline running and queued * 1000 < size * rate, and at the end not both unless it is the 200th |
| JitterBuffer.WaitIsDetermined | libagorac/helpers/utilities.cpp:92-104 | there is one such number of rounds |
| FrameRate.FeedAccumulates | libagorac/agorac.cpp:340-345 | inside a window the timestamp sum telescopes to the advance since the last frame before it (since its own first frame at start-up), and the counter is the number of frames modulo 256 |
| FrameRate.PredictionIsFrameRate | libagorac/agorac.cpp:337-393 | at the end of every window, the first one included, predicted * (advance of the timestamps) = 1000 * (8-bit number of frames), unless that is 255 per second or more, when the old prediction stays; when only the second clock comparison sees the end, the counter restarts and the advance is left to the next window |
| FrameRate.StartsAtThirty | libagorac/agorac.cpp:243-246 | until its first window ends a run predicts 30 frames per second |
| FrameRate.FirstPrediction | libagorac/agorac.cpp:337-393 | the first prediction of a run is the number of its frames over the time between its first and last timestamp, unless that is 255 per second or more |
| FrameRate.SendKeepsUsable | libagorac/agorac.cpp:337-360 | one frame keeps the prediction strictly between 0 and 255 if and only if the window does not end on a wrapped frame counter with a positive timestamp sum |
| FrameRate.RunCounts | libagorac/agorac.cpp:337-393 | in every run the counter is the number of frames in the window modulo 256, and the prediction is strictly between 0 and 255 or zero |
| FrameRate.UsableExactlyWhen | libagorac/agorac.cpp:337-393 | all predictions of a run are strictly between 0 and 255 if and only if no window ends on a multiple of 256 frames with a positive timestamp sum |
| FrameRate.RunStaysUsable | libagorac/agorac.cpp:337-393 | in particular in every run with at most 255 frames per window |
| FrameRate.FullWindowBreaksPrediction | libagorac/helpers/context.h:44 | a concrete run of 256 frames in one window after which the prediction is zero |
| Decimation.NeverAheadExactlyWhen | libagorac/agorac.cpp:273-300 | in every interleaving of sending, deciding, counting, new predictions and clearing of the counters, wrapping counters included: low * R < high + R at every moment outside a clearing if and only if outside the clearings no key frame is forced and the 8-bit count of frames sent does not wrap behind low frames, and no low frame is left over by a clearing before the high thread has sent again |
| Decimation.NeverAheadMeans | libagorac/agorac.cpp:273-300 | what never running ahead says of each prefix of a run |
| Decimation.LowNeverRunsAhead | libagorac/agorac.cpp:273-300 | otherwise, while no counter wraps, the bound grows by R for every forced key frame of the window and for a frame left over from the window before |
| Decimation.ClearingWhileSending | libagorac/agorac.cpp:389-390 | a concrete run in which a frame left over by a clearing breaks the bound without that extra R |
| Decimation.LockstepIsExact | libagorac/agorac.cpp:273-300 | with R at least 1 and every delta frame handled right after it was counted, high <= low * R < high + R after each |
| Decimation.LockstepSendsAll | libagorac/agorac.cpp:273-300 | with R at most 1 every frame is sent |
| Decimation.KeepsUpExactlyWhen | libagorac/agorac.cpp:273-300 | in lockstep the low stream keeps up if and only if R is at least 1 |
| Pacing.SleepIsSleepFor | libagorac/helpers/utilities.cpp:34-53 | with a later successor queued the sleep is the distance to it, or 95 percent of that cut down to a millisecond |
| Pacing.SleepExactly | libagorac/helpers/utilities.cpp:34-48 | without a successor, or with one of the same timestamp, the sleep is current - last, with another successor next - current, all of it while size * distance <= jb_size and otherwise 95 percent of it cut down to a millisecond |
| Pacing.SleepsTelescope | libagorac/helpers/utilities.cpp:34-53 | the sleeps over a run of frames total at most the advance of the timestamps and at least 0.95 times it minus 0.99 ms per frame, for every pattern of speed-ups |
| Context.AgoraContext.constructor | libagorac/agorac.cpp:232-256 | the initial state of the controllers |
| Context.AgoraContext.ResizeBuffer | libagorac/helpers/utilities.cpp:118-135 | the resizing on the fields is one step of the growth model |
| Context.AgoraContext.WaitForBuffering | libagorac/helpers/utilities.cpp:85-116 | for every predicted rate, zero included, the loop ends within 200 rounds, exactly at a disconnect, a full buffer or the 200th round; the gate is closed in between and open behind it |
| Context.AgoraContext.CheckAndFillInVideoJb | libagorac/agorac.cpp:432-452 | buffering starts exactly after an idle time above three times the predicted frame rate with an empty queue, and is followed by a resizing only below the maximum |
| Context.AgoraContext.UpdatePredictedFps | libagorac/agorac.cpp:337-360 | the update on the fields is one step of the prediction model |
| Context.AgoraContext.CountSentVideo | libagorac/agorac.cpp:374-395 | a frame is one step of the prediction model; for the decimation model it is nothing inside a window and a new ratio and the clearing of both counters at its end, also while a low frame is being re-encoded |
| Context.AgoraContext.CountHighFrame | libagorac/agorac.cpp:495 | the 8-bit count of frames sent |
| Context.AgoraContext.DecideLow | libagorac/agorac.cpp:273-280 | the decision of the low thread is that of the decimation model |
| Context.AgoraContext.CountLow | libagorac/agorac.cpp:299 | the 8-bit count of the re-encoded frame |
| Context.AgoraContext.SkipOrSendLow | libagorac/agorac.cpp:273-300 | a frame is re-encoded exactly if it is due or a key frame, and counted in 8 bits |
| Context.AgoraContext.GetNextSamplingPoint | libagorac/helpers/utilities.cpp:28-55 | the sleep is the one of the pacing model, and is remembered: the distance to the head of the queue or, without one or at the same timestamp, to the frame before, 95 percent of it exactly if the queue holds more than the buffer size at that distance |
| WorkQueue.WorkQueue.constructor | libagorac/workqueue.h:15 | a new queue is empty |
| WorkQueue.WorkQueue.Add | libagorac/workqueue.h:20-28 | an item goes to the end, as in the pipeline, and nothing else changes |
| WorkQueue.WorkQueue.Get | libagorac/workqueue.h:31-41 | the oldest item not yet removed is taken out, as in the pipeline; nothing happens to an empty queue |
| WorkQueue.WorkQueue.Top | libagorac/workqueue.h:56-62 | the oldest item not yet removed |
| WorkQueue.WorkQueue.Size | libagorac/workqueue.h:52-54 | the number of items added and not removed |
| WorkQueue.WorkQueue.IsEmpty | libagorac/workqueue.h:44 | empty means everything added was removed |
| WorkQueue.WorkQueue.Clear | libagorac/workqueue.h:66-71 | the loop removes all items, in order |
| Delivery.QueueKeptByStep | libagorac/agorac.cpp:474-475 | a step of the high thread loses, doubles and reorders nothing of its queue and never takes from an empty one |
| Delivery.SentKeptByStep | libagorac/agorac.cpp:475-498 | what was taken is what was sent and the item in hand |
| Delivery.PacesKeptByStep | libagorac/agorac.cpp:481-493 | every computed sleep belongs to its frame: it is that for the distance to the frame behind it if that had arrived (with another timestamp) and otherwise for that to the frame before it, in the order of arrival, although the queue grows meanwhile |
| Delivery.LooksAtHead | libagorac/helpers/utilities.cpp:35-37 | the high thread sees the successor exactly if it has been added by the time it looks |
| Delivery.RecordsPace | libagorac/helpers/utilities.cpp:41-48 | each sleep is computed from what was seen, the length of the queue and the size of the buffer, once for each frame |
| Delivery.LowKeptByAdd | libagorac/agorac.cpp:476-478 | forwarding keeps the accounting of the low queue, before and after it is cleared |
| Delivery.LowKeptByClear | libagorac/agorac.cpp:577 | clearing drops what is queued and nothing else |
| Delivery.LowKeptByStep | libagorac/agorac.cpp:506-527 | a step of the low thread moves frames from its queue to those taken, before or after the clearing |
| Delivery.LowSentKeptByStep | libagorac/agorac.cpp:273-300 | the low stream leaves frames out and does nothing else |
| Delivery.KeysKeptByStep | libagorac/agorac.cpp:280 | no key frame is left out of the low stream |
| LowStream.LowStreamIsChosen | libagorac/agorac.cpp:273-300 | in every interleaving there is one decision for each frame the low thread has dealt with, and the low stream is exactly those of them that are key frames or whose own decision was that they are due |
| LowStream.ChosenByStep | libagorac/agorac.cpp:273-300 | every step keeps that |
| LowStream.ClearingEmptiesQueue | libagorac/agorac.cpp:577 | the clearing drops exactly what is queued and touches nothing else |
| Delivery.AudioKeptByStep | libagorac/agorac.cpp:530-560 | a step of the audio thread loses, doubles and reorders nothing |
| Delivery.InvStep | libagorac/agorac.cpp:454-580 | every step of every thread keeps the invariant |
| Delivery.InvAlways | libagorac/agorac.cpp:454-580 | every interleaving keeps the invariant |
| Shutdown.HighStreamIsPrefix | libagorac/agorac.cpp:454-503 | in every interleaving: frames put into the video queue = frames taken ++ frames queued; the high stream is a prefix of them; at most one item is in hand; the high thread never works on a null item |
| Shutdown.LowStreamIsOrdered | libagorac/agorac.cpp:477-527 | in every interleaving the low thread takes the frames added up to some point and then, past those a disconnect cleared away, a later stretch; what it sends is an ordered subsequence of the frames added, with every key frame it has handled; until the clearing, taken ++ queued = forwarded |
| Shutdown.AudioStreamIsPrefix | libagorac/agorac.cpp:530-560 | in every interleaving the audio stream is a prefix of the packets added, with at most one in hand |
| Shutdown.PacingInEveryRun | libagorac/helpers/utilities.cpp:34-53 | in every interleaving, for every stretch of frames each of which found an increasing successor queued, the sleeps telescope as in the pacing model, whatever the queue lengths and buffer sizes were |
| Shutdown.PacesInEveryRun | libagorac/helpers/utilities.cpp:28-55 | in every interleaving, for every frame paced: the sleep is that for the distance to the next frame put into the queue, if that had arrived and has another timestamp, and otherwise for that to the one before |
| Shutdown.EmptiedQueueRepeatsInterval | libagorac/helpers/utilities.cpp:36-38 | in particular a frame that found the queue empty sleeps the distance to the frame before it, 95 percent of it exactly if the queue has filled beyond the buffer size since |
| Gate.GateRankStep | libagorac/helpers/utilities.cpp:85-116 | while the gate is closed the high thread can take a step, each of its steps brings the opening nearer, no other step defers it, and the queue only grows |
| Gate.GateOpens | libagorac/helpers/utilities.cpp:85-116 | the gate is closed for at most 202 steps of the high thread in a row, in every interleaving |
| Gate.OnlyOpenGatePasses | libagorac/agorac.cpp:551-553 | in any state the audio thread leaves the gate with its own step and exactly if the gate is open or the pipeline stopped; there is no other way past it |
| Gate.GateHoldsAudio | libagorac/agorac.cpp:550-555 | over any run with the gate closed and the pipeline running: an audio thread at the gate stays there and sends nothing, and any other sends at most the one item already past it |
| Gate.GateNeverDeadlocks | libagorac/agorac.cpp:551-553 | a waiting audio thread goes on if and only if the gate is open or a disconnect has begun, and until then the high thread has steps to take |
| Buffering.BuffersExactlyWhen | libagorac/agorac.cpp:459-472 | on the way to its queue a running high thread starts to buffer exactly if it has been idle and the queue is empty |
| Buffering.LoopIsWait | libagorac/helpers/utilities.cpp:92-104 | the buffering steps of the pipeline take exactly the rounds WaitForBuffering takes, with the gate closed from the first one on |
| Buffering.ResizeIsAfterBuffering | libagorac/agorac.cpp:446-450 | behind the loop the pipeline opens the gate and gives the buffer the size the growth model gives it |
| Progress.StepAdvances | libagorac/agorac.cpp:454-562 | while the pipeline is running, every step of a thread with something to do (for the audio thread, at the open gate) deals with the next item or brings that nearer, and no other step defers it |
| Progress.CanGoOn | libagorac/workqueue.h:46-50 | while the pipeline is running, a thread with something to do is neither asleep nor at its end |
| Progress.RunIsPath | libagorac/agorac.cpp:454-562 | the positions of a thread along every run that keeps running form a path of such steps |
| Progress.ItemsAreSent | libagorac/agorac.cpp:454-562 | from the start and whatever has happened before: while the pipeline is running, in every interleaving, the first k items queued or in hand are sent within 209 + 9 * (k - 1) steps of the high thread, sent or skipped within 4 * k of the low thread, and sent within 6 * k of the audio thread at the open gate |
| Shutdown.OneMoreGet | libagorac/agorac.cpp:564-580 | from any reachable state in which isRunning is false, no interleaving lets a thread take more than one further item |
| Shutdown.ShutdownStep | libagorac/agorac.cpp:564-580 | once the sentinels are in, each thread that has not ended has its sentinel in its queue; kept by every step |
| Shutdown.HighHasWork | libagorac/workqueue.h:46-50 | once told, the high thread cannot sleep on an empty queue |
| Shutdown.RankDrops | libagorac/agorac.cpp:454-580 | after a disconnect every step of every thread, spurious wake-ups included, decreases the measure |
| Shutdown.ShutdownProgress | libagorac/agorac.cpp:454-580 | after a disconnect no thread that has not ended is blocked in waitForWork, also when clear falls between the low thread's wait and its get |
| Shutdown.ShutdownTerminates | libagorac/agorac.cpp:454-580 | from any such state at most 24 steps follow, and nothing can happen any more exactly when all threads have ended |
| Shutdown.DisconnectNeverWaits | libagorac/agorac.cpp:564-580 | the disconnecting thread can always take its next step |
| Shutdown.ProducersNeverWait | libagorac/workqueue.h:20-28 | a frame can be added, and a disconnect begun, whatever the other threads are doing |
| Shutdown.DisconnectEndsAllThreads | libagorac/agorac.cpp:454-580 | whatever happened before, a disconnect ends all three threads within 24 steps of any interleaving |

## Left out

Assumptions:

- The threads interleave at the shared accesses listed in `Pipeline` (sequential consistency); in the C++ code `isRunning` and `isJbBuffering` are plain fields. Each queue method is one step, since it runs under the lock; `isEmpty` and `size`, which do not take it, are read in one step too.
- Clock-dependent decisions of the pipeline (idle time, full buffer, doubling, due low frame) are arbitrary in every step, so the pipeline results hold for all of them; the controllers are modelled separately, on arbitrary clock readings.
- Clock readings are parameters. Sleeping is a step; its length is recorded for the high thread and not used.
- The exact numbers behind `float` and `double` values are reals, and the factor 0.95 is exact. `long`, `int` and the 64-bit counters are unbounded; 8- and 16-bit fields wrap as they do in the code, bytes are 0 to 255, and the signed 8-bit countdown over parameter sets is spelled out.
- Bit operations are written as arithmetic; bits or-ed together never overlap, and are added.
- The size of the output buffer of the conversion is a parameter (the code has 1024 * 1024 bytes). For an empty output the code returns length 0 with an allocated buffer, which is `Converted([])` here and distinct from `Ignored`, where the out-parameter is not set.
- `dfps` is positive, since the code divides by it; the predicted frame rate may be zero.
- A copy of an argument value beyond the end of the caller's array (`Arguments.CopyFits` says when) is not modelled: `GetArgValue` is about copies that fit.
- Messages come as chains of at least one buffer, as nginx delivers them; the length size `avc_nal_bytes` is 1 to 4. nginx-rtmp's codec module, which sets it, is not part of this model.
- The gateway takes every decoded AAC frame to hold 1024 samples per channel (ngx_agora_helper.c:543), and so does the model.

Not modelled:

- The Agora SDK, FFmpeg, x264, libopus and swscale: decoding, encoding and sending record what they are given; a decoder or encoder error that drops a frame is not modelled.
- `agora_init`, encryption, the two-second sleep and the release of objects in `agora_disconnect`: they depend on the SDK or on wall-clock time. The pipeline starts fully initialised.
- Logging, audio dump files, observer callbacks, configuration parsing and scripts: input and output only.
- Allocation failures, and the freeing of the converted buffer by the caller.
- `convert_audio_sample_f32_s16`, `calcVol`, `getMax`, the speed-based `GetNextSamplingPoint` and `getVideoSyncBytesPos`: elementwise, for logging, or never called.
- `AgoraEncoder::handlePostEncoding`: its input comes from x264.
- How `ngx_agora_init` turns argument values into numbers and defaults.

Weaker than the code or only part of it:

- Pipeline.Apply: the audio thread computes a sampling point too; its sleep and timestamp are not recorded, because no property is stated about them.
- Decimation.NeverAheadExactlyWhen: asks for predictions above zero, says nothing about the moments between an update of the prediction and the end of the clearing that goes with it, and takes each increment of a counter as one step.
- WorkQueue.WorkQueue.Get: the waiting in `waitForWork` is not a method of the class; it is the steps `HWait`, `LWait` and `AWait` of the pipeline, where a sleeping thread is woken by an addition to its queue or spuriously.
- Shutdown.OneMoreGet: counts takings, not the passes through the loops; a thread in the middle of a pass finishes it.
- Truncation.ConvertedMeansWholeMessage: says of parameter sets that do not fit only that a front of them is written; `VideoRewriter.AvccToAnnexB` and `Avcc.Convert` say which.
- FrameRate.PredictionIsFrameRate: asks that timestamps of zero come first, if at all, since the code takes a previous timestamp of zero for none.
- VideoRewriter.AvccToAnnexB: the static output buffer is a parameter, and the copy into freshly allocated memory is the sequence returned.
