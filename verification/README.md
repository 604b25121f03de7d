# Verified models of obe-rt

obe-rt is a real-time broadcast encoder. This project models the parts of it whose correctness is a
matter of bits, queues and clocks, and proves what they are meant to guarantee. Code that changes things
step by step is modelled by classes and loops that do the same, each proved against a specification
function; the theorems are about those functions, for all inputs or all runs.

- **Bit streams** (`Bits`, `BitWriting`, `BitReading`, `Fields`, `ExpGolomb`). The writer of
  `common/bitstream.h` on a 64-bit little-endian machine, with its accumulator whose high bits are never
  cleared and its early 32-bit stores, and the reader of `common/bs_read.h`. Machine words are strings of
  bits. The writer's state is always plain concatenation of what was written, over any run of calls.
- **Formats** (`ByteWriting`, `Captions`, `Teletext`, `Rtp`). Caption distribution packets to ITU-T T.35
  user data, teletext PES payloads, RTP headers: each proved both against the bytes a standard asks for
  and by reading them back.
- **Detectors** (`Smpte337`, `Smpte337Format`, `Smpte337Runs`, `Smpte337Times`, `Smpte337Frames`, `Vanc`,
  `VancFormat`). The chunk-list detector of SMPTE 337 bursts is one pass over the concatenated bytes, however
  they were cut up; it finds the bursts that were written and no others, and the writes whose bursts get the
  right times are known exactly. The ancillary data scan judges each packet of a line once.
- **Threads** (`Queues`, `Mux`, `MuxRuns`, `MuxTimes`, `EncoderSmoothing`, `EncoderSmoothingTimes`,
  `MuxSmoothing`, `MuxSmoothingRuns`, `MuxSmoothingGate`, `Reorder`, `ReorderRequests`). Each critical section
  is one atomic step, and theorems hold over every interleaving: order per stream, conservation of frames, the
  times given, pacing and when it waits, pairing of packets and clock references, requests and release in order.
- **Small transformations** (`Splitting`, `Splitter`, `SplitMeaning`, `BurnIn`, `Downconvert`, `Raster`). Option
  splitting with escapes, counters burned into V210 pictures, interlaced chroma conversion and dithering.
- `Sequences` holds a fact that several modules need.

Addresses are indices into one byte array that starts at a multiple of four, and four bytes of slack
follow every stream, since a flush stores a whole word.

## What the proofs found

- **Encoder smoothing** waits for one clock tick only, so frames leave on time in every run exactly when no
  gap between decoding times exceeds a tick (`EncoderSmoothing.OnTimeIff`). A frame that sets the pacing origin
  with the decoding time -1 leaves it "not set", so the next frame sets it again
  (`EncoderSmoothingTimes.ReleasesRight`).
- **Reordering**: when the frame that completes is the next one, the held frames are not looked at. Two
  neighbours that complete in the wrong order leave the second one held until a later frame completes
  (`Reorder.FastPathHoldsBackIff`, `Reorder.SwappedPairIsHeld`, `Reorder.SwappedRunHolds`,
  `Reorder.LastCompletionPassesAllIff`), and a failed frame holds up all later ones
  for good (`Reorder.FailureStalls`).
- **SMPTE 337**: the detector takes an audio frame to be four bytes, which is so for a span of two channels
  only, so with any other span a burst can be reported with another frame's time (`Smpte337Frames.OffsetsRightIff`).
  And a write of 16-bit samples is not packed, yet appends an empty chunk with its own time, which a burst that
  comes next is given. For given formats and times of the writes, every burst of every run gets the time of the
  audio frame it starts in exactly when each 32-bit write has a span of two and each block of 16-bit writes
  begins with the time of the 32-bit write after it (`Smpte337Frames.TimesRightIff`;
  `Smpte337Times.EmptyChunkExample` has two concrete chunks). The program's one caller always passes 32-bit
  samples and a span of two (`encoders/audio/ac3bitstream/ac3bitstream.c:269-283`).
- **SMPTE 337 packing**: the assertion on the size of a chunk stands before each store of two bytes, so it
  passes totals of up to 16386 bytes for a chunk of 16384 (`Smpte337.Pack32`).
- **Multiplexer**: a first video time stamp of -1 is taken for "not set", so the early-frame purge runs again,
  a stream can lose its order and its times can go back. Every run purges at most once, keeps every stream in
  order and never sets a time back exactly when that time stamp is not -1 (`MuxRuns.OnePurgeIff`,
  `MuxRuns.NeverBackIff`, with a run for each frame stamped -1 in `MuxRuns.SentinelPurgesAgain`). No frame is
  lost or duplicated either way (`MuxRuns.ExactlyOnePlace`). The comment at the head of `mux/ts/ts.c`
  describes drift corrections that the loop does not contain; the loop is what is modelled.
- **Option splitting**: when the limit is reached, a pointer left over from an earlier piece is written
  through, which shortens that piece (`SplitMeaning.SplitExactIff`, `SplitMeaning.KeyCutShort`). Without a
  limit, separators are counted without overlap but pieces are cut with it, so the pieces of every string fit
  the allocation exactly when separators cannot overlap, or only with two or more characters that end in a
  backslash between their beginnings (`Splitter.FitsIff`; `Splitter.RepeatedSeparatorOverflows` is the
  shortest failure). The program's own callers pass one character (`obe/obecli.c:413`, `obe/obecli.c:428`).
- **Ancillary data**: a packet without user data that ends exactly with the line is not reached
  (`Vanc.ScanExact`).

## Model

| member | source | states |
|---|---|---|
| BitWriting.BitWriter.Init | common/bitstream.h:84-92 | Starting at any address keeps the bytes before it in their word: they are the first bits of the stream. |
| BitWriting.BitWriter.Pos | common/bitstream.h:93-96 | The position is the number of bits from the aligned start, pending ones included. |
| BitWriting.BitWriter.Flush | common/bitstream.h:98-104 | The stream is completed with zeros to whole bytes; nothing outside it and four bytes of slack changes. |
| BitWriting.BitWriter.Realign | common/bitstream.h:105-116 | Taking an unfinished word back changes no bit of the stream and makes the position aligned. |
| BitWriting.BitWriter.Write | common/bitstream.h:118-134 | Exactly the low n bits are appended, whatever stands in the stale bits of the accumulator; a wider value is safe if its surplus is already there. |
| BitWriting.BitWriter.Write32 | common/bitstream.h:154-160 | Exactly 32 bits are appended although the second half is passed unmasked. |
| BitWriting.BitWriter.Write1 | common/bitstream.h:162-173 | One bit is appended. |
| BitWriting.BitWriter.Align0 | common/bitstream.h:175-179 | Zeros up to a byte boundary, all stored. |
| BitWriting.BitWriter.RbspTrailing | common/bitstream.h:264-268 | A stop bit and zeros up to a byte boundary. |
| BitWriting.BitWriter.WriteBytes | filters/video/cc.c:61-71 | At any misalignment the stream is padded to bytes and the bytes are appended; the start of the stream is kept. |
| Bits.EndianFix32IsSum | common/bitstream.h:56-59 | The sum of the four shifted and masked terms is the word with its bytes swapped. |
| Bits.EndianFix64IsSum | common/bitstream.h:60-63 | The sum of the two swapped and shifted halves is the 64-bit word with its bytes swapped. |
| Fields.Perform | common/bitstream.h:84-268 | From any reachable state, at any address and over any mix of the calls that write, flush, align, finish or, after a flush, realign, stored bytes and pending bits are the concatenation of what the calls wrote. |
| BitReading.BitReader.Read | common/bs_read.h:60-105 | Up to 32 bits are read most significant first, zeros past the end, and the position moves by as many. |
| BitReading.BitReader.Read1 | common/bs_read.h:107-124 | One bit is read, or zero past the end. |
| BitReading.BitReader.Show | common/bs_read.h:126-130 | The same value as a read, without moving. |
| BitReading.BitReader.Skip | common/bs_read.h:132-143 | Skipping n bits reaches the position that reading n bits reaches. |
| BitReading.BitReader.Pos | common/bs_read.h:50-53 | The position in bits. |
| BitReading.BitReader.Eof | common/bs_read.h:55-58 | The end is reported exactly when every byte has been passed. |
| Fields.WriteFields | common/bitstream.h:99-134 | A list of fields becomes the padded concatenation of their bits. |
| Fields.ReadFields | common/bs_read.h:60-105 | Reading the same counts from any stream that starts with the fields gives their values. |
| Fields.WriteThenRead | common/bs_read.h:60-105 | Writing any list of fields, flushing and reading the same counts gives the values back. |
| Fields.FieldReadsBack | common/bs_read.h:60-105 | Field k lies where the counts before it end, for every stream that starts with the fields. |
| ExpGolomb.SizeTable | common/bitstream.h:193-211 | An entry of the size table is the length of the code, twice the bit length less one. |
| ExpGolomb.UeCodeAsNumber | common/bitstream.h:213-236 | The code of section 9.1 of ITU-T H.264, leading zeros then the number, is the number plus one in a field of the code's length. |
| ExpGolomb.WriteUe | common/bitstream.h:232-236 | The code of a number below 255 is appended. |
| ExpGolomb.WriteUeBig | common/bitstream.h:213-230 | The code of any number up to 2^31 - 2 is appended. |
| ExpGolomb.WriteSe | common/bitstream.h:238-254 | The code of a signed number by the mapping of section 9.1.1 is appended. |
| ExpGolomb.WriteTe | common/bitstream.h:256-262 | The truncated code is appended. |
| ExpGolomb.SeNumberRoundTrip | common/bitstream.h:238-254 | The signed mapping and its inverse undo each other in both directions. |
| ExpGolomb.SeOrder | common/bitstream.h:238-254 | The mapping numbers values by magnitude, the positive one first, as table 9-3 of ITU-T H.264 does. |
| ExpGolomb.UeTable | common/bitstream.h:213-236 | The first codes of table 9-2, bit by bit. |
| ExpGolomb.DecodeUeCode | common/bitstream.h:213-236 | A code followed by anything decodes to its number and leaves the rest. |
| ExpGolomb.UeCodesUnique | common/bitstream.h:213-236 | Two lists of numbers with the same codes are the same list. |
| Rtp.RtpContext.WritePacket | output/ip/ip.c:125-153 | The packet is the header of section 5.1 of RFC 3550 and as many bytes as the payload size says, which start with the data; the sequence number always advances modulo 2^16, the counters only if the packet was sent, by one and by the data's length. |
| Rtp.HeaderParses | output/ip/ip.c:132-142 | Version, payload type, sequence number, timestamp and source read back from their places. |
| Rtp.TimestampParses | output/ip/ip.c:139-140 | The timestamp read back is the 27 MHz time in ticks of 300, cut off towards zero, modulo 2^32. |
| Captions.WriteT35 | filters/video/cc.c:185-233 | The user data of section 6.2.3 of ATSC A/53 Part 4: identification, count with flags, the triplets unchanged, a closing 0xff. |
| Captions.Write708 | filters/video/cc.c:185-233 | The new user data replaces the packet it was made from. |
| Captions.CalcChecksum | filters/video/cc.c:235-260 | The sum of all bytes but the last, modulo 256. |
| Captions.CheckPacket | filters/video/cc.c:235-265 | The test passes exactly for the right identifier and a byte sum of 0 modulo 256. |
| Captions.ReadSections | filters/video/cc.c:278-345 | With any time code, service information and future sections, the reader is at a byte boundary at every section and finds the triplets of the caption section. |
| Captions.ReadCdp | filters/video/cc.c:235-350 | A well-formed packet of section 5 of SMPTE ST 334-2 is accepted exactly when identifier and sum are right and it carries captions; then the user data is the T.35 form of the same triplets, otherwise it is untouched. |
| Captions.UsualPacket | filters/video/cc.c:194-350 | A packet with time code, captions and service information, byte for byte, is accepted exactly if it has triplets and its bytes sum to a multiple of 256, and its triplets come out behind the ten bytes of the T.35 form, byte for byte. |
| Captions.LaterCaptions | filters/video/cc.c:295-307 | A caption section replaces the one before it; other sections leave it. |
| Captions.ClosingByte | filters/video/cc.c:249-258 | Exactly one last byte makes a packet pass the sum test. |
| Teletext.ReverseTwice | input/sdi/vbi.c:47-66 | Reversing every byte twice gives the line back. |
| Teletext.ReverseBits | input/sdi/vbi.c:47-66 | Bit i of a table entry is bit 7 - i of its index. |
| Teletext.WriteHeaderByte | input/sdi/vbi.c:437-447 | Two reserved bits, the field parity and the line offset. |
| Teletext.WriteTtxField | input/sdi/vbi.c:460-474 | The framing code and the reversed bytes of the line, for teletext, inverted teletext and NABTS. |
| Teletext.WriteStuffing | input/sdi/vbi.c:483-499 | The stuffing unit that completes the payload, if one is needed. |
| Teletext.Encapsulate | input/sdi/vbi.c:593-630 | The payload is the data identifier, the units of the teletext lines in order and the stuffing. |
| Teletext.WalkFindsUnits | input/sdi/vbi.c:593-630 | A receiver that follows the length fields finds exactly the units that were written. |
| Teletext.PayloadWellFormed | input/sdi/vbi.c:483-499 | The payload begins with 0x10, the walk from byte 1 lands exactly on the end, and with the 45-byte PES header it fills whole packets (section 4 of ETSI EN 300 472), with one unit of 0xff bytes at most, and none when the lines fill them already. |
| Teletext.UnitsOfLines | input/sdi/vbi.c:606-621 | There is one unit for each teletext line, in order, and none for other lines. |
| Teletext.LegalLines | input/sdi/sdi.c:301-326 | The lines whose number in their field fits five bits: 1 to 31 and 314 to 344 of 625, 4 to 31 and 267 to 294 of 525. |
| Teletext.LineRecovered | input/sdi/vbi.c:609-621 | Every line's unit has 46 bytes, 02 and 44 first, two reserved bits, the field bit set before line 314 (267) only, the line in the field, the framing code e4, and the line's data bit-reversed. |
| Smpte337.Detector.Peek | input/sdi/smpte337_detector2.c:93-160 | Bytes come in stream order across chunks; consuming removes exactly those read; the byte counter stays the sum of what is left. |
| Smpte337.Detector.Discard | input/sdi/smpte337_detector2.c:175-183 | The first n bytes of the stream go. |
| Smpte337.Detector.RunDetector | input/sdi/smpte337_detector2.c:270-353 | The calls made and the chunks left are those of the list scan; the scan ends. |
| Smpte337.Detector.Step | input/sdi/smpte337_detector2.c:281-352 | Each round consumes at least a byte or ends the scan. |
| Smpte337.Detector.TakeBurst | input/sdi/smpte337_detector2.c:305-337 | The read of a burst is never short, so the list is never emptied; one call is made with its mode, type, bit count, payload and time. |
| Smpte337.Detector.Write | input/sdi/smpte337_detector2.c:355-394 | Whenever the assertion holds, a write appends one chunk, empty for 16-bit samples, and scans; rejected parameters change nothing. |
| Smpte337.Pack32 | input/sdi/smpte337_detector2.c:233-268 | The high two bytes of each sample, high byte first, frame by frame; the assertion stops it exactly if the total is more than 16386 bytes, after that many. |
| Smpte337.FlatDetector.RunDetector | input/sdi/smpte337_detector.c:126-184 | The first detector's scan of its ring buffer. |
| Smpte337Format.BurstRoundTrip | input/sdi/smpte337_detector2.c:291-337 | A burst laid out as in SMPTE 337M, with any stream number, error flag, mode and length, is found first with exactly its mode, type 1, bit count and payload, and the scan goes on behind it; both detectors are stated by this scan. |
| Smpte337Format.LeadInSkipped | input/sdi/smpte337_detector2.c:342-349 | Bytes in which no place holds f8 72 4e 1f and type 1 are skipped. |
| Smpte337Format.ScanSound | input/sdi/smpte337_detector2.c:281-352 | Every burst found stands in the stream as its preamble says, none overlap, no preamble outside them is passed over, and the scan stops only before 16 bytes or at an unfinished burst. |
| Smpte337Format.FrameTicks | input/sdi/smpte337_detector2.c:319-320 | The offset of frame n is 562.5 n ticks, rounded to nearest with halves up. |
| Smpte337.ConsumedDrops | input/sdi/smpte337_detector2.c:93-160 | Consuming n bytes of the list drops n bytes of the flat stream. |
| Smpte337.ScanResumes | input/sdi/smpte337_detector2.c:270-353 | Scanning what was left together with new bytes continues the scan of all bytes. |
| Smpte337.ListScanIsFlatScan | input/sdi/smpte337_detector2.c:270-353 | The scan of the list finds the bursts of the flat stream and leaves its unread bytes. |
| Smpte337Runs.RunIsOnePass | input/sdi/smpte337_detector2.c:355-394 | After any sequence of writes the bursts found and the bytes left are those of one pass over all bytes. |
| Smpte337Runs.ChunkingIndependent | input/sdi/smpte337_detector2.c:355-394 | Any two ways to cut the same bytes into writes, and the first detector fed with any third, find the same bursts and keep the same bytes. |
| Smpte337Frames.FrameCellsAre | input/sdi/smpte337_detector2.c:244-265 | Byte r of a packed write belongs to frame r / (2 * span), which has the write's time plus 562.5 ticks a frame. |
| Smpte337Frames.PackedByte | input/sdi/smpte337_detector2.c:244-265 | Byte k of frame q is byte 3 or 2 of 32-bit word k / 2 of that frame in the caller's buffer. |
| Smpte337Frames.OffsetsRightIff | input/sdi/smpte337_detector2.c:319-323 | The offsets the detector adds are those of the frames, at every byte, if and only if the span is two. |
| Smpte337Frames.TimesAreExact | input/sdi/smpte337_detector2.c:316-334 | With spans of two, and blocks of 16-bit writes that begin with the time of the write after them, every burst of every run gets the time of the audio frame it starts in. |
| Smpte337Frames.FillForces | input/sdi/smpte337_detector2.c:270-394 | For any other formats and times there are samples, two bursts to a write, with which some burst gets another frame's time. |
| Smpte337Frames.TimesRightIff | input/sdi/smpte337_detector2.c:270-394 | All runs with given formats and times of the writes are right, whatever their samples, if and only if that test on the formats and times holds. |
| Smpte337Times.FirstTimeRightIff | input/sdi/smpte337_detector2.c:310-334 | A burst at the head of the list gets its first byte's time exactly if the first chunk holds a byte or has the same time. |
| Smpte337Times.TimedRun | input/sdi/smpte337_detector2.c:355-394 | If every block of empty chunks that are written begins with the time of the next chunk with bytes, no burst of the run is taken with an empty chunk of another time at the head of the list. |
| Smpte337Times.EmptyChunkMisdates | input/sdi/smpte337_detector2.c:365-386 | Writing an empty chunk with a time of its own and then a burst gives the burst the wrong time. |
| Smpte337Times.EmptyChunkExample | input/sdi/smpte337_detector2.c:365-386 | Two concrete writes that do so. |
| Smpte337Runs.WriteAll | input/sdi/smpte337_detector2.c:355-394 | Any list of calls of the write function, rejected ones included, leaves the detector in the state of the run of their chunks. |
| Smpte337Runs.PackedJoin | input/sdi/smpte337_detector2.c:233-268 | Packing m + n frames gives the packed m frames followed by the packed n frames, which begin m strides later. |
| Smpte337Runs.WriteCutInTwo | input/sdi/smpte337_detector2.c:355-394 | After any run, one write of m + n frames and two writes of its parts find the same bursts and keep the same bytes. |
| Vanc.GetVancType | input/sdi/ancillary.c:33-42 | The type of the first matching entry before the terminating zero. |
| Vanc.ParsedTypes | input/sdi/ancillary.h:37-69 | Exactly three identifiers lead to a parser. |
| Vanc.ParseVancLine | input/sdi/ancillary.c:344-416 | The parser calls and errors are those of the scan, for every line and whatever word follows it in memory. |
| Vanc.ScanExact | input/sdi/ancillary.c:356-411 | On every line of packets, good or bad, separated by words above 3, each packet is judged once in order although the scan continues at its checksum; only an empty packet that ends the line is missed. |
| Vanc.GoodLineDispatched | input/sdi/ancillary.c:377-404 | Good packets pass their checksum and are dispatched once each, in order. |
| Vanc.ChangeCaughtIff | input/sdi/ancillary.c:372-379 | The checksum changes exactly if the low nine bits of the changed word do. |
| Vanc.CorruptedPacketRefused | input/sdi/ancillary.c:372-404 | A good packet with the low nine bits of one word other than DC changed fails its checksum. |
| Vanc.CorruptedLine | input/sdi/ancillary.c:356-411 | On a line of good packets such a change turns the verdict on that packet into an error and no other verdict; the packets after it are found in their places. |
| VancFormat.ChecksumWord | input/sdi/ancillary.c:371-379 | The checksum has the sum of the words in its low nine bits and the inverse of bit 8 in bit 9 (section 6 of SMPTE ST 291-1). |
| VancFormat.FlagWord | input/sdi/ancillary.c:357-357 | A flag word has bits 2 to 9 set. |
| VancFormat.ParserGets | input/sdi/ancillary.c:380-404 | A good packet with one of the three identifiers leads to one call of its parser, with the data count and as many words as it says; any other to nothing. |
| VancFormat.CutShortStops | input/sdi/ancillary.c:359-381 | A packet longer than its line gives a length error after the verdicts on the packets before it, and the scan ends; if only its checksum is missing, the word after the line is taken for it. |
| VancFormat.CaptionLine | input/sdi/ancillary.c:344-416 | A line of twelve words with a caption packet, word for word. |
| Queues.ObeQueue.Add | common/queue.c:26-44 | The item is appended. |
| Queues.ObeQueue.RemoveFirst | common/queue.c:63-83 | The head goes, the order stays. |
| Queues.ObeQueue.RemoveItem | common/queue.c:85-111 | The first occurrence of the item goes and nothing else. |
| Queues.WithoutIsFilter | common/queue.c:85-111 | Among distinct items, removal by identity keeps all the others in order. |
| Queues.WithoutFirst | common/queue.c:85-111 | The first occurrence goes, and an item that is not there changes nothing. |
| Mux.MuxThread.RemoveEarlyFrames | obe/obe.c:452-475 | Removal in place, with its index adjustment, keeps exactly the video frames and those not earlier, in order. |
| Mux.MuxThread.FindVideo | mux/ts/ts.c:903-960 | The bound is the first queued video frame's; the first time, the clock is set and early frames go. |
| Mux.MuxThread.SelectBatch | mux/ts/ts.c:977-1056 | The batch is what the selection specifies, with its 90 kHz decoding and presentation times. |
| Mux.MuxThread.RemoveFrame | mux/ts/ts.c:1138-1142 | One frame of the batch is taken out of the queue as it is by then. |
| Mux.BatchExact | mux/ts/ts.c:977-1056 | A batch holds the first queued video frame, nothing beyond its time, and leaves behind nothing within it. |
| MuxTimes.SelectionMeans | mux/ts/ts.c:903-1056 | With the first queued video frame named by its place: the clock set, the frames purged, those kept and those selected, each by the frames' own stamps. |
| MuxRuns.RunConserves | mux/ts/ts.c:882-1145 | For distinct frames with any time stamps, every state of every interleaving with producers conserves them. |
| MuxRuns.RunKeepsClock | mux/ts/ts.c:882-1145 | If the first video frame is not stamped -1, nothing leaves the queue before the clock is set, and every time sent is by that one clock. |
| MuxRuns.RunKeepsOrder | mux/ts/ts.c:882-1145 | If frames are also queued by time within their streams, every state keeps every stream in order. |
| MuxRuns.StreamsInOrder | mux/ts/ts.c:882-1145 | What was queued on a stream is, in order, what was purged, what was sent and what is queued. |
| MuxRuns.TimesNondecreasing | mux/ts/ts.c:999-1041 | The 90 kHz times of a stream never go back over a whole run. |
| MuxTimes.SentTimes | mux/ts/ts.c:1025-1041 | In every run each video frame sent has its own decoding and presentation times divided by 300, and each other frame one time for both, from some video frame's stamps. |
| MuxTimes.SentFromFirst | mux/ts/ts.c:1025-1041 | Unless the first video frame is stamped -1, those stamps are the first video frame's. |
| MuxRuns.ExactlyOnePlace | mux/ts/ts.c:1058-1142 | Every frame ever appended is purged, sent once or still queued, and only one of these, whatever is appended between the unlock and the removal. |
| MuxRuns.PurgeOnce | mux/ts/ts.c:921-929 | Frames are purged by one selection of a run at most. |
| MuxRuns.ClockSetIff | mux/ts/ts.c:921-929 | After the selection that should set the clock, no later selection purges anything, whatever is queued by then, exactly if the first video frame's time stamp is not -1. |
| MuxRuns.OnePurgeIff | mux/ts/ts.c:882-1145 | Every run purges in one selection at most, and every run keeps its streams in order, if and only if the first video frame's time stamp is not -1. |
| MuxRuns.NeverBackIff | mux/ts/ts.c:999-1041 | The times of every stream in every run never go back if and only if the first video frame's time stamp is not -1. |
| MuxRuns.SentinelPurgesAgain | mux/ts/ts.c:921-929 | For every video frame stamped -1, a run that it starts, which purges twice and puts a stream out of order. |
| EncoderSmoothing.Smoother.WakeUp | encoders/encoder_smoothing.c:94-122 | The buffer gate and the head of the queue, as the state machine's step. |
| EncoderSmoothing.Smoother.LookAtClock | encoders/encoder_smoothing.c:128-148 | Whether to wait for a tick, and for which purpose, as the state machine's step. |
| EncoderSmoothing.Smoother.AfterTick | encoders/encoder_smoothing.c:137-148 | The origin is set by the first tick and by no other. |
| EncoderSmoothing.Smoother.PassFrameOn | encoders/encoder_smoothing.c:153-153 | The frame is appended to the multiplexer's queue. |
| EncoderSmoothing.Smoother.PopHead | encoders/encoder_smoothing.c:158-162 | The head goes and the known size is forgotten. |
| EncoderSmoothing.RunBasic | encoders/encoder_smoothing.c:92-165 | In every interleaving frames leave first in, first out, the queue is never read when empty, and nothing leaves before the buffer has been filled. |
| EncoderSmoothing.NeverEarly | encoders/encoder_smoothing.c:124-153 | If ticks are no finer than the frames, no frame of any run leaves early, through resets, idle ticks and spurious wake-ups. |
| EncoderSmoothing.OnTimeIff | encoders/encoder_smoothing.c:124-153 | Every allowed run is on time if and only if the gap between frames is at most a tick. |
| EncoderSmoothingTimes.ReleasesRight | encoders/encoder_smoothing.c:128-148 | In every run a frame waits for a tick exactly if it sets the origin or was early at the clock of its look; the first frame after each filling of the buffer sets the origin, and no other does unless the last origin is -1. |
| EncoderSmoothingTimes.OriginOfFill | encoders/encoder_smoothing.c:104-148 | With decoding times other than -1, each filling of the buffer has one origin, its first frame's. |
| EncoderSmoothingTimes.CompleteIff | encoders/encoder_smoothing.c:104-117 | The buffer counts as complete exactly if a wake-up has found it full since the last reset. |
| EncoderSmoothingTimes.WakeExact | encoders/encoder_smoothing.c:94-122 | A wake-up takes the head of the queue exactly if the buffer is full now or has been since the last reset. |
| EncoderSmoothingTimes.FillsCounted | encoders/encoder_smoothing.c:104-117 | A new filling begins exactly at such a wake-up after a reset or at the start. |
| EncoderSmoothingTimes.NoLostWakeUp | encoders/encoder_smoothing.c:94-95 | The smoother never sleeps while a frame that may be taken is queued. |
| MuxSmoothing.PacketsAppend | mux/smoothing.c:225-254 | Appending to both FIFOs keeps every packet with its clock reference. |
| MuxSmoothing.PacketsCut | mux/smoothing.c:269-272 | Reading the same number of packets from both FIFOs cuts the packets in one place. |
| MuxSmoothing.MuxSmoother.Section | mux/smoothing.c:129-195 | A due reset empties the queue and the FIFOs; otherwise a round starts on the whole queue exactly if it spans the buffering time, or one has been started before. |
| MuxSmoothing.MuxSmoother.Drain | mux/smoothing.c:225-254 | The packets in the FIFOs are the old ones followed by those of the drained items. |
| MuxSmoothing.MuxSmoother.Output | mux/smoothing.c:262-320 | Outputs and FIFOs together keep their packets; every buffer is one payload; the rest is below a payload unless a drop is due. |
| MuxSmoothingRuns.RunKeepsPairs | mux/smoothing.c:129-320 | In every interleaving, between two resets, outputs followed by the FIFOs are the drained packets, each with its clock reference, in full payloads, and nothing is read that is not there. |
| MuxSmoothingGate.RunKeepsGate | mux/smoothing.c:170-190 | In every run nothing is taken since the last reset unless the items appended since have spanned the buffering time, and what was looked at in vain has not. |
| MuxSmoothingGate.SectionExact | mux/smoothing.c:170-190 | A round starts exactly if the clock references in the queue span the buffering time, or one has been started since the last reset. |
| MuxSmoothingGate.ResetExact | mux/smoothing.c:136-165 | A due reset empties the queue and the FIFOs and starts buffering again. |
| MuxSmoothingGate.OutputExact | mux/smoothing.c:262-272 | A payload is packets of 188 bytes off the front of both FIFOs; more than ten million bytes ask for a drop. |
| MuxSmoothingGate.NoLostRound | mux/smoothing.c:103-104 | Once a round has been started, the smoother never sleeps while an item is queued. |
| Reorder.Filter.Process | filters/video/vapoursynth_vf.cpp:433-492 | Numbering, the one-second delay and the request, as the state machine's steps. |
| Reorder.Filter.FrameDone | filters/video/vapoursynth_vf.cpp:255-303 | The loop passes on held frames as long as the next number is among them. |
| Reorder.RunKeepsInv | filters/video/vapoursynth_vf.cpp:255-303 | In every run each accepted frame is in exactly one place: waiting, held or passed on. |
| ReorderRequests.RequestsInOrder | filters/video/vapoursynth_vf.cpp:480-489 | In every run each number is requested once, in order, from the first on. |
| ReorderRequests.RequestIff | filters/video/vapoursynth_vf.cpp:480-489 | In every run an arriving frame makes a request, for the next number, exactly if more than a second of frames has been accepted, by the rate of the script looked at last. |
| ReorderRequests.RequestsExact | filters/video/vapoursynth_vf.cpp:480-489 | With one frame rate each frame is requested exactly when the frame fps + 1 later arrives. |
| Reorder.PassedOnInOrder | filters/video/vapoursynth_vf.cpp:255-303 | In every run what is passed on is exactly the accepted frames from the first on, without gap or duplicate. |
| Reorder.SlowPathDrains | filters/video/vapoursynth_vf.cpp:289-303 | After a completion that had to wait, the next number is not held back. |
| Reorder.FastPathHoldsBackIff | filters/video/vapoursynth_vf.cpp:282-287 | After the completion of the next number itself, its successor is held back exactly if it had completed before. |
| Reorder.SwappedPairIsHeld | filters/video/vapoursynth_vf.cpp:282-287 | Two neighbours completed in the wrong order leave the second one held. |
| Reorder.SwappedRunHolds | filters/video/vapoursynth_vf.cpp:282-287 | A run of three frames that gets there: both requested frames have completed, the first is passed on and the second held. |
| Reorder.AllCompleted | filters/video/vapoursynth_vf.cpp:255-303 | Once all requested frames have completed, all have been passed on if and only if the next one is not held back. |
| Reorder.LastCompletionPassesAllIff | filters/video/vapoursynth_vf.cpp:282-303 | The last outstanding completion passes everything on exactly unless its frame is the next one and not the last requested. |
| Reorder.FailureStalls | filters/video/vapoursynth_vf.cpp:260-264 | However a run goes on without a frame's successful completion, the frame keeps waiting and nothing passes it. |
| Splitter.SplitString | obe/obecli.c:346-397 | The array holds the specified pieces followed by nulls, so the terminator the program asserts is there. |
| Splitter.NullTerminatorFits | obe/obecli.c:351-394 | The pieces and a null fit the allocation for every limit, and without one for every separator that cannot overlap itself, or only with a backslash at the end of two or more characters between the beginnings. |
| Splitter.FitsIff | obe/obecli.c:351-374 | Without a limit the pieces of every string and a null fit if and only if the separator is of that kind. |
| Splitter.OverlappedOverflows | obe/obecli.c:351-374 | For every other separator, two overlapping copies of it give at least three pieces, for an allocation of three. |
| Splitter.RepeatedSeparatorOverflows | obe/obecli.c:351-374 | Splitting aaa at aa overflows. |
| SplitMeaning.SplitIsParse | obe/obecli.c:365-391 | For every string and limit, the result is a reading of the string character by character, cut at unescaped separators, up to what the left-over pointer cuts off. |
| SplitMeaning.SplitExactIff | obe/obecli.c:375-385 | The result is that reading exactly unless the pieces reach the limit, the last one holds a separator and the one before it a backslash. |
| SplitMeaning.KeyedOption | obe/obecli.c:430-432 | A named option splits into key and value, the value whole, the key whole unless it holds a backslash and the value a separator. |
| SplitMeaning.KeyCutShort | obe/obecli.c:375-385 | A key that is cut short. |
| SplitMeaning.EscapedJoinSplits | obe/obecli.c:375-391 | Splitting undoes escaped joining exactly unless the pieces are one empty piece or one but the last ends in a backslash. |
| SplitMeaning.PlainSplit | obe/obecli.c:365-391 | Without backslashes the string is cut at its first separators only, as many as the limit allows, and joining gives it back. |
| BurnIn.DrawBoxAt | input/sdi/v210.c:1224-1256 | The box's twelve lines of eight words take the colouring, nothing else changes. |
| BurnIn.WriteValue | input/sdi/v210.c:1258-1264 | The frame afterwards, word by word. |
| BurnIn.ReadValue | input/sdi/v210.c:1266-1289 | The value is spelled by the 32 luma samples. |
| BurnIn.ReadBits | input/sdi/v210.c:1266-1289 | Each bit read says whether the ten low bits of one given word are above 128. |
| BurnIn.BurnedReadsBack | input/sdi/v210.c:1258-1289 | Every 32-bit value reads back from any line whose sample lies in its boxes, whatever was in the frame. |
| BurnIn.BurnedElsewhere | input/sdi/v210.c:1258-1289 | A value at other lines does not disturb it. |
| BurnIn.OnlyBoxesChange | input/sdi/v210.c:1203-1264 | Within twelve lines and 256 words every word is a white or black V210 word by its bit of the value; all others are unchanged. |
| Downconvert.DownsampleTop | filters/video/video.c:227-234 | One row of 3:1 blends. |
| Downconvert.DownsampleBottom | filters/video/video.c:236-242 | One row of 1:3 blends. |
| Downconvert.ConvertPlane | filters/video/video.c:485-503 | The plane afterwards is the converted one: each element within the width is a blend of two input lines, the rest is unchanged. |
| Downconvert.FieldsStayApart | filters/video/video.c:493-503 | No line of the converted plane depends on the other field of the input. |
| Downconvert.ConvertedBetween | filters/video/video.c:227-242 | Rows 2k and 2k + 1 of the converted plane come from input rows 4k, 4k + 2 and 4k + 1, 4k + 3, nearest line three parts, rounded with halves up, and lie between the two. |
| Downconvert.RangeKept | filters/video/video.c:227-242 | A plane within any range, such as ten bits, is converted to one within it. |
| Downconvert.DitherRow10To8 | filters/video/video.c:205-225 | The unrolled loop and its tail dither every sample by its column. |
| Downconvert.DitherPlane | filters/video/video.c:540-565 | Every sample of the plane is dithered by its row and column. |
| Downconvert.DitheredSample | filters/video/dither.h:25-35 | Each sample has 1, 2 or 3, 0 by turns added, by the parity of its row and column, and is scaled by 511 / 2048. |
| Downconvert.DitherFits | filters/video/video.c:205-225 | The store in a byte is exact up to the sum of the largest 10-bit sample and the largest dither, and not beyond. |
| Downconvert.DitherBounds | filters/video/video.c:205-225 | Dithering is monotone, maps the ends to the ends and stays within one of a quarter. |
| Downconvert.FlatBlock | filters/video/dither.h:25-35 | A flat two by two block sees each dither once, never gets brighter and loses at most three of 1023 steps. |

## Left out

- Capture drivers, encoders, sockets, files, scripts and user interface: I/O or foreign libraries.
- Big-endian and 32-bit machines, `bs_align_1` and `bs_align_10`: variants of what is modelled.
- `write_608_cc`, `encapsulate_dvb_vbi`, `write_afd`, `encapsulate_user_data`: more formats over the same writer.
- The parsers that the ancillary scan calls, and the probe flag it sets: the calls and their data are the result.
- BitWriting.BitWriter.WriteBytes: the copies of `write_bytes` in `filters/video/cc.c` and `input/sdi/vbi.c` are one method.
- Rtp.RtpContext.WritePacket: bytes past the data, when the payload size is larger, are whatever the buffer held.
- Captions.ReadCdp: packets that are not well formed are not modelled; the reader has no defence against them.
- Smpte337.FlatDetector.RunDetector: the ring buffer is a byte sequence, so its overflow and the 16-bit packing are not modelled.
- Smpte337.Detector.Write: a chunk of 16386 bytes, which the assertion lets pass, is taken to keep the two bytes that do not fit its allocation of 16384.
- Mux.MuxThread.SelectBatch: the lookup of the stream for its packet identifier, and the arrival times, priority and random access flag that are copied from the coded frame.
- `ts_write_frames` is a sink; the monitoring and reports of the multiplexer loop do not touch its frames.
- MuxRuns.StreamsInOrder: excludes a first video frame stamped -1, as does MuxRuns.TimesNondecreasing; `MuxRuns.OnePurgeIff` and `MuxRuns.NeverBackIff` show that for every such frame they fail.
- MuxSmoothing.MuxSmoother.Output: the sleeps between buffers, further outputs that get the same buffer, and changes of the payload size.
- EncoderSmoothing.NeverEarly: thread cancellation ends the waits early and is not modelled.
- Reorder.Filter.Process: loading a script is an outcome given from outside; frames of other formats are handed back before anything changes.
- Reorder.PassedOnInOrder: a callback is one atomic step, as its lock makes it; frames are known by an identifier in place of an address.
- Splitter.SplitString: separators for which some string overflows the allocation (`Splitter.FitsIff`), without a limit.
- The option tables of `obe_split_options` and `obe_get_option`: lookups in the pieces.
- BurnIn.ReadValue: pictures scaled in between; the scale is one.
- Downconvert.ConvertPlane: odd output heights, for which the last round of the loop reads past the input plane.
- Allocation failure, logging and thread priorities.
