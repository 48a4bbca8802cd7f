# libucomm framing, modelled in Dafny

libucomm is a small C++ library for message passing over byte streams between
microcontrollers and hosts. Generated message classes serialise themselves
into an *envelope*, which frames the bytes and adds a checksum on the wire,
and a matching envelope reader recovers them byte by byte. This project
models the library's core and proves properties about it:

- **the escape envelope** (`EnvelopeWriter`/`EnvelopeReader`, `envelope.dfy`).
  A frame is `0xFF code <payload with every 0xFF doubled as 0xFF 0xFE> 0xFF 0xFD
  <checksum byte>`. The reader is a five-state machine.
- **the COBS envelope** (`COBSWriter`/`COBSReader`).
  - The writer stuffs the packet in place into a buffer region, back-patching
    each block's code byte (`cobs_format.dfy`, `cobs_writer.dfy`).
  - The reader un-stuffs byte by byte and checks the checksum when the closing
    zero arrives (`cobs_reader.dfy`, `cobs_stream.dfy`).
- **the checksum generators** (`ModSumGenerator`, `InvertedModSumGenerator`,
  `Fletcher16Generator`, `checksum.dfy`). The library has three classes with the
  same `reset/add/value` interface; here they are one class tagged with its
  algorithm.
- **the integer-width templates** (`TypeForBytes`, `DoIntForSize`,
  `IntForSize`, `integers.dfy`). They choose the narrowest unsigned type for a
  capacity.
- **variable-length lists** (`List`, `list.dfy`).
  - The readable list: `deserialize`, `next`, `remaining`.
  - The writable list: `setData`, `setCallback`, `serialize`.
- **the FIFO of the tests** (`BufferIO`, `bufferio.dfy`). It is the escape
  writer's sink and the readers' byte source.

Each reader is given twice:
- a pure transition function, `Step`;
- a class whose `Take` method is proved to follow `Step`.

Properties of whole byte streams are stated with `Run`, which folds `Step`
over a stream. It collects the delivered messages and counts the errors.

The main results:
- Frames round-trip for both envelopes: `EnvelopeStream.FrameRoundTrip` and
  `CobsStream.FrameRoundTripFromIdle`.
  - The escape round trip holds only for message codes other than 0xFD, 0xFE
    and 0xFF. The escape writer sends any code, but the reader never opens a
    packet with one of those three (see "## Findings").
  - The COBS round trip holds for every code below 255, the codes its writer
    accepts.
- Frames sent back to back arrive as separate messages, in order:
  `EnvelopeStream.TwoFrames` and `CobsStream.TwoFrames`.
- A frame too long for the escape reader's buffer is not dropped cleanly. The
  library's reader returns to START1 in the middle of the frame and reads the
  rest as new traffic; it can deliver a message that was never sent
  (`EnvelopeStream.OversizeFramePhantom`). A corrected reader that skips the
  rest of the frame drops it and then delivers the next frame
  (`EnvelopeStream.OversizeThenFrame`; see "## Findings"). In the library's
  reader a payload of exactly `MaxPacketSize` bytes is always dropped
  silently (`EnvelopeStream.FrameAtCapacityDropped`). A longer one is dropped
  cleanly only when no 0xFF follows the cut and its checksum byte happens to
  be 0xFD, 0xFE or 0xFF, which START2 ignores. Otherwise the rest of the
  frame leaves a phantom packet open, or delivers one.
- The library's two loopback tests, each sending one message twice, hold for
  every payload that fits: `EnvelopeLoopback.Loopback` and `CobsLoopback.Loopback`.
- The COBS writer produces exactly the stuffed frame: `CobsEncode.CobsWriter.Send`.
- A payload byte changed by an amount that is not a multiple of the checksum's
  modulus is reported as one checksum error: `CobsStream.ChangedPayloadRejected`.
  Corrupted code bytes and data bytes turned into zero are not covered; they
  can end a frame early or give a frame error.
- The checksum registers compute their closed forms: `Checksum.RegistersGiveDigest`.
- List images round-trip: `Lists.ListImageRoundTrip` and `Lists.ListRoundTrip`.

Modelling conventions:
- Bytes are `Byte` (0..255). Integers are unbounded; each wrap-around in the
  source is written out (`% 256`, `% 255`).
- Multi-byte values (checksums, list counts and elements) are copied with
  `memcpy` in the library. They are modelled as little-endian, as on the
  library's targets.
- The COBS writer's output region (`dataPointer()`/`dataSize()`) is an array.
  The length passed to `packetComplete` is returned by `EndEnvelope`.
- The COBS `endEnvelope` always reserves a slot for a further code byte.
  So it succeeds exactly when the *terminated* frame fits, even when
  `terminate` is false. The model states this. Its check for room for the
  terminating zero can never fail, which is noted at that point in the code.

## Model

| member | source | states |
|---|---|---|
| Bytes.LittleEndian | include/libucomm/cobs_envelope.h:261-264 | a value below 256^width is written as exactly `width` bytes |
| Bytes.FromLittleEndian | include/libucomm/cobs_envelope.h:470-471 | the value read from n bytes is below 256^n |
| Bytes.FromLittleEndianOfLittleEndian | include/libucomm/cobs_envelope.h:261-264 | a value written as `width` little-endian bytes reads back as the same value |
| Bytes.LittleEndianOfFromLittleEndian | include/libucomm/cobs_envelope.h:470-471 | bytes read as a little-endian value and written back give the same bytes |
| Bytes.LittleEndianInjective | include/libucomm/cobs_envelope.h:470-473 | two equally long byte strings read as the same value exactly when they are equal |
| Integers.TypeForBytes | include/libucomm/util/integers.h:10-42 | 0 or 1 bytes give a 1-byte type, 2 a 2-byte type, 3 or 4 a 4-byte type; the type is never narrower than asked |
| Integers.DoIntForSize | include/libucomm/util/integers.h:44-56 | `DoIntForSize<Size, Acc>`: a width of 1, 2 or 4 bytes, at least `Acc`, whose remaining `width - Acc` bytes hold `Size` |
| Integers.IntForSize | include/libucomm/util/integers.h:58-63 | `IntForSize<Size>::Type`: a width of 1, 2 or 4 bytes that holds `Size` |
| Integers.DigitsBound | include/libucomm/util/integers.h:44-49 | a size has at most k base-256 digits exactly when it is below 256^k |
| Integers.DoIntForSizeCountsDigits | include/libucomm/util/integers.h:44-56 | the recursion divides by 256 once per digit: the result is `TypeForBytes(acc + digits)` |
| Integers.IntForSizeIsRoundedDigits | include/libucomm/util/integers.h:58-63 | `IntForSize` is `TypeForBytes` of the number of base-256 digits of the size |
| Integers.IntForSizeBands | include/libucomm/util/integers.h:58-63 | sizes below 0x100 get 1 byte, below 0x10000 2 bytes, larger ones 4 bytes |
| Integers.IntForSizeFits | include/libucomm/util/integers.h:58-63 | every value up to the size fits the chosen type, so a cursor or count never overflows it |
| Integers.IntForSizeMonotone | include/libucomm/util/integers.h:58-63 | a larger capacity never gets a narrower type |
| BufferIo.NextPos | tests/bufferio.cpp:8-11 | the next slot stays inside the buffer, is 0 exactly after the last slot and otherwise the following one |
| BufferIo.RingUpdate | tests/bufferio.cpp:33 | writing the free slot at `writePos` does not disturb the stored bytes |
| BufferIo.RingTail | tests/bufferio.cpp:46-47 | the oldest stored byte sits at `readPos`; the rest start at `nextPos(readPos)` |
| BufferIo.BufferIO.Room | tests/bufferio.cpp:26-31 | free space is `size - 1` minus the stored bytes: one slot always stays empty |
| BufferIo.BufferIO.constructor | tests/bufferio.cpp:13-19 | a new FIFO of the given size is empty |
| BufferIo.BufferIO.WriteChar | tests/bufferio.cpp:26-35 | accepted exactly when there is room; the byte is appended, otherwise nothing changes |
| BufferIo.BufferIO.IsCharAvailable | tests/bufferio.cpp:37-40 | true exactly when the FIFO holds a byte |
| BufferIo.BufferIO.GetChar | tests/bufferio.cpp:42-50 | returns the oldest byte and removes it |
| BufferIo.Transfer | tests/bufferio.cpp:26-50 | bytes written into an empty FIFO are read back in the same order and leave it empty |
| Checksum.SumWidth | include/libucomm/checksum.h:15 | the sum is one byte wide, two for Fletcher-16 only |
| Checksum.AddByte | include/libucomm/checksum.h:72-76 | one `add`: the modular sums stay below 256, Fletcher's registers below 255 |
| Checksum.Accumulate | include/libucomm/checksum.h:12-85 | the registers after `reset` and an `add` per byte: below 256, or 255 for Fletcher-16; the modular sums leave the second register at zero |
| Checksum.AccumulateSnoc | include/libucomm/checksum.h:17-20 | feeding one more byte is one more `add` on the registers |
| Checksum.Digest | include/libucomm/checksum.h:78-81 | the closed-form checksum fits `SumType` |
| Checksum.DigestBytes | include/libucomm/cobs_envelope.h:261-264 | the checksum on the wire is `sizeof(SumType)` bytes |
| Checksum.SumAppend | include/libucomm/checksum.h:17-20 | the byte sum of a concatenation is the sum of the parts |
| Checksum.ModSumRegister | include/libucomm/checksum.h:12-33 | after `reset` and `add` of each byte, `m_value` is the byte sum modulo 256 |
| Checksum.FletcherRegisters | include/libucomm/checksum.h:61-76 | `m_sum1` is the byte sum and `m_sum2` the weighted sum, both modulo 255 |
| Checksum.FletcherValue | include/libucomm/checksum.h:78-81 | `value()` packs `m_sum2` as high byte and `m_sum1` as low byte |
| Checksum.RegistersGiveDigest | include/libucomm/checksum.h:12-85 | for all three generators, `value()` after `reset` and the adds equals the closed-form digest |
| Checksum.SumRemove | include/libucomm/checksum.h:17-20 | removing the byte at i takes exactly that byte off the sum |
| Checksum.SumPermutation | include/libucomm/checksum.h:17-20 | the byte sum depends only on the multiset of bytes |
| Checksum.ModSumOrderIndependent | include/libucomm/checksum.h:12-56 | both modular sums ignore byte order: reordered bytes get the same digest |
| Checksum.SumUpdate | include/libucomm/checksum.h:17-20 | replacing one byte changes the byte sum by exactly the difference |
| Checksum.Modulus | include/libucomm/checksum.h:12-85 | the plain byte sum is carried modulo 256, or modulo 255 for Fletcher-16 |
| Checksum.DigestCarriesSum | include/libucomm/checksum.h:12-85 | every digest determines the byte sum modulo its modulus |
| Checksum.DigestDetectsByteChange | include/libucomm/checksum.h:12-85 | a single changed byte whose difference is not a multiple of the modulus changes the digest |
| Checksum.ChecksumGenerator.constructor | include/libucomm/checksum.h:12-85 | a generator of the chosen algorithm, fed nothing |
| Checksum.ChecksumGenerator.Reset | include/libucomm/checksum.h:66-70 | `reset` clears the registers and forgets every byte fed |
| Checksum.ChecksumGenerator.Add | include/libucomm/checksum.h:72-76 | `add` appends the byte to what was fed and keeps the registers equal to the fold of the fed bytes |
| Checksum.ChecksumGenerator.Value | include/libucomm/checksum.h:78-81 | `value()` is the digest of the bytes fed since `reset` and fits `SumType` |
| Envelope.Escaped | include/libucomm/envelope.h:56-69 | what `write` sends for a payload: between one and two wire bytes per payload byte |
| Envelope.Frame | include/libucomm/envelope.h:45-78 | the frame of one message: five bytes of header and trailer plus one or two wire bytes per payload byte |
| Envelope.EscapedAppend | include/libucomm/envelope.h:56-69 | escaping a concatenation is the concatenation of the escapes |
| Envelope.EscapedTransparent | include/libucomm/envelope.h:12-21 | every 0xFF in an escaped payload is followed by 0xFE, so no payload can fake a start or end marker |
| Envelope.EscapedSnoc | include/libucomm/envelope.h:58-66 | escaping one more byte appends that byte's wire form |
| Envelope.EscapedSplit | include/libucomm/envelope.h:58-66 | escaping splits at any index |
| Envelope.EscapedStep | include/libucomm/envelope.h:58-66 | the wire form of byte i sits between the escapes of the bytes before and after it |
| Envelope.WriteCut | include/libucomm/envelope.h:58-63 | when a byte is refused part-way, the sink holds exactly as much of the escaped data as there was room for |
| Envelope.EnvelopeWriter.constructor | include/libucomm/envelope.h:40-43 | the writer keeps the given sink and a fresh checksum of the chosen algorithm |
| Envelope.EnvelopeWriter.StartEnvelope | include/libucomm/envelope.h:45-54 | succeeds exactly when two bytes fit; then `0xFF code` is sent and the checksum restarts from the code; otherwise what fitted is sent |
| Envelope.EnvelopeWriter.WriteEscaped | include/libucomm/envelope.h:58-66 | one payload byte: its wire form is sent exactly when it fits, and the byte is fed to the checksum |
| Envelope.EnvelopeWriter.WriteEscapePair | include/libucomm/envelope.h:60-63 | the two bytes 0xFF 0xFE go out exactly when both fit; otherwise as much of them as fits |
| Envelope.EnvelopeWriter.Write | include/libucomm/envelope.h:56-69 | succeeds exactly when the escaped data fits; then the sink gains the escaped data and the checksum the raw data; otherwise the sink holds the prefix that fitted |
| Envelope.EnvelopeWriter.EndEnvelope | include/libucomm/envelope.h:71-78 | succeeds exactly when three bytes fit; then `0xFF 0xFD` and the checksum of the fed bytes are sent |
| Envelope.Step | include/libucomm/envelope.h:152-227 | `take`: keeps the cursor within the buffer; reports something other than NEED_MORE_DATA only in the checksum state, and NEW_MESSAGE exactly when the byte equals the checksum. The phases `Skip`, `SkipEscape` and `SkipChecksum` exist only in the corrected machine (`skipOversize`) |
| Envelope.CursorFitsSizeType | include/libucomm/envelope.h:98 | the cursor `m_idx` always fits the `SizeType` chosen for `MaxPacketSize` |
| Envelope.EnvelopeReader.View | include/libucomm/envelope.h:262-267 | the reader's fields seen as a machine state that satisfies the cursor invariant |
| Envelope.EnvelopeReader.constructor | include/libucomm/envelope.h:140-143 | a new reader waits for the first 0xFF |
| Envelope.EnvelopeReader.Take | include/libucomm/envelope.h:152-227 | the new state and the result are exactly `Step` of the old state |
| Envelope.EnvelopeReader.MsgCode | include/libucomm/envelope.h:229-230 | `msgCode()` is the code of the current state |
| Envelope.EnvelopeReader.MakeReader | include/libucomm/envelope.h:232-235 | a window over exactly the stored payload, positioned at its start |
| Window.Reader.constructor | include/libucomm/envelope.h:107-111 | a window over the given bytes, at the start |
| Window.Reader.Copy | include/libucomm/list.h:44 | copying a reader copies its bytes and its position |
| Window.Reader.Read | include/libucomm/envelope.h:113-122 | succeeds exactly when `size` bytes remain; returns them and advances past them, otherwise nothing moves |
| Window.Reader.Skip | include/libucomm/envelope.h:124-132 | succeeds exactly when `size` bytes remain; advances past them, otherwise nothing moves |
| EnvelopeStream.Emit | include/libucomm/envelope.h:208-213 | a step delivers a message exactly when it reports NEW_MESSAGE |
| EnvelopeStream.RunAppend | include/libucomm/envelope.h:152-227 | feeding `a + b` is feeding `a`, then `b` from where `a` left the reader |
| EnvelopeStream.RunOne | include/libucomm/envelope.h:152-227 | feeding one byte is one `take`, with its message and error counted |
| EnvelopeStream.RunCons | include/libucomm/envelope.h:152-227 | feeding `c` then the rest is one step followed by the rest |
| EnvelopeStream.RunQuiet | include/libucomm/envelope.h:226 | a step that reports NEED_MORE_DATA delivers nothing and counts no error |
| EnvelopeStream.RunEscapeByte | include/libucomm/envelope.h:170-194 | the wire form of a payload byte stores that byte and feeds it to the checksum |
| EnvelopeStream.RunPayload | include/libucomm/envelope.h:170-194 | an escaped payload that fits is stored and fed to the checksum exactly, without a report |
| EnvelopeStream.RunHeader | include/libucomm/envelope.h:156-169 | `0xFF code` from idle opens a packet with that code and the checksum seeded with it |
| EnvelopeStream.RunRestart | include/libucomm/envelope.h:202-207 | `0xFF code` inside a packet restarts it; the checksum is seeded only in the corrected machine |
| EnvelopeStream.RunTrailer | include/libucomm/envelope.h:196-223 | `0xFF 0xFD chk` delivers the packet exactly when chk is the checksum, otherwise counts one checksum error |
| EnvelopeStream.RunFrameAfterHeader | include/libucomm/envelope.h:170-223 | after the header, the escaped payload is stored whole and the trailer decides |
| EnvelopeStream.FrameRoundTrip | include/libucomm/envelope.h:45-78 | a frame the writer produces, fed to an idle reader, delivers exactly that message and no error |
| EnvelopeStream.TwoFrames | tests/simple.cpp:40-73 | two frames back to back deliver both messages in order, with no checksum error |
| EnvelopeStream.ReservedCodeLost | include/libucomm/envelope.h:160-169 | as written: the empty frame with code 0xFD, 0xFE or 0xFF, sent to an idle reader, delivers nothing and reports no error |
| EnvelopeStream.ReservedCodeOpensPacket | include/libucomm/envelope.h:160-169 | as written, with the inverted sum: the empty frame with code 0xFD, 0xFE or 0xFF delivers nothing, and its checksum byte `255 - code` opens a packet that leaves the reader in DATA |
| EnvelopeStream.FrameAtCapacityDropped | include/libucomm/envelope.h:171-175 | a payload of exactly `MaxPacketSize` bytes is dropped silently: no message, no error, and the reader ends idle (START2 in the library's reader when the checksum byte is 0xFF, otherwise START1) |
| EnvelopeStream.RunTrailerWhenFull | include/libucomm/envelope.h:171-175 | with a full buffer the trailer delivers nothing and reports no error; the reader ends in START1, or in START2 when the library's reader takes a checksum byte 0xFF for a frame start |
| EnvelopeStream.RunOpening | include/libucomm/envelope.h:156-194 | the opening pair and a payload that fits leave the reader in DATA with that payload stored and checksummed |
| EnvelopeStream.RunDropThenOpen | include/libucomm/envelope.h:156-175 | as written: with the buffer full, a byte `x`, then an escaped 0xFF and a byte START2 accepts, open a new packet with that byte as its code |
| EnvelopeStream.RunPhantomOpening | include/libucomm/envelope.h:156-194 | as written: an oversize frame cut as `k`, `x`, escaped 0xFF, `c`, `q` leaves the reader inside a packet with code `c` and payload `q` |
| EnvelopeStream.RunThenTrailer | include/libucomm/envelope.h:196-213 | a stream that leaves the reader in DATA, followed by the trailer with the right checksum, delivers the stored packet and no error |
| EnvelopeStream.DigestSkipsMultiple | include/libucomm/checksum.h:12-56 | bytes summing to a multiple of 256 in front of a stream leave a modular-sum digest unchanged |
| EnvelopeStream.DroppedBytesKeepDigest | include/libucomm/checksum.h:12-56 | the writer's checksum over the oversize frame equals that of the phantom packet when the dropped bytes sum to a multiple of 256 |
| EnvelopeStream.PhantomFrameBytes | include/libucomm/envelope.h:56-78 | the wire form of that oversize frame is its header, the escaped stored bytes, `x 0xFF 0xFE c`, the escaped `q` and the trailer |
| EnvelopeStream.OversizeFramePhantom | include/libucomm/envelope.h:170-175 | as written: an oversize frame whose payload goes on with `x`, 0xFF, `c`, `q` delivers the message `(c, q)`, which was never sent, whenever the dropped bytes sum to a multiple of 256 |
| EnvelopeStream.OversizeFramePhantomExample | include/libucomm/envelope.h:170-175 | as written: with `MaxPacketSize` 2, the frame of code 0xFB and payload `1 2 3 0xFF 7 8` delivers the message 7 carrying `8` |
| EnvelopeStream.SkipEscapeByte | include/libucomm/envelope.h:170-194 | corrected: while skipping, the wire form of any payload byte is discarded |
| EnvelopeStream.SkipPayload | include/libucomm/envelope.h:170-194 | corrected: while skipping, an escaped payload of any length is discarded with nothing reported |
| EnvelopeStream.SkipTrailer | include/libucomm/envelope.h:196-213 | corrected: while skipping, `0xFF 0xFD chk` returns the reader to START1 with nothing reported, whatever chk is |
| EnvelopeStream.SkipRest | include/libucomm/envelope.h:170-213 | corrected: the rest of an oversize frame, payload and trailer, is discarded and the reader ends in START1 |
| EnvelopeStream.OversizeFrameSkipped | include/libucomm/envelope.h:170-175 | corrected: a frame whose payload has at least `MaxPacketSize` bytes delivers nothing, reports no error and leaves the reader in START1 |
| EnvelopeStream.OversizeThenFrame | include/libucomm/envelope.h:170-175 | corrected: after such a frame the next frame is delivered intact, with no error |
| EnvelopeStream.RestartedFrameRejected | include/libucomm/envelope.h:202-207 | as written: a whole frame arriving inside an unfinished one is rejected with one checksum error whenever its code is non-zero |
| EnvelopeStream.PrefixChangesModSum | include/libucomm/checksum.h:12-56 | leaving a non-zero code out of a modular sum changes the digest |
| EnvelopeStream.RestartedFrameDeliveredWhenSeeded | include/libucomm/envelope.h:202-207 | corrected: when the restart seeds the checksum with the code, such a frame is delivered intact |
| EnvelopeLoopback.Send | include/libucomm/envelope.h:80-88 | `operator<<`: the frame goes out whole exactly when the sink has room for it |
| EnvelopeLoopback.SendChecked | include/libucomm/envelope.h:45-54 | corrected: a code the reader refuses is refused before anything is sent; any other frame goes out whole exactly when it fits |
| EnvelopeLoopback.SendRest | include/libucomm/envelope.h:56-78 | after a header that fitted, payload and trailer go out exactly when the rest of the frame fits |
| EnvelopeLoopback.ReceiveStep | tests/simple.cpp:47-49 | one turn of the receiving loop keeps the collected messages in line with `Run` |
| EnvelopeLoopback.Receive | tests/simple.cpp:49-54 | one `take` and its message or error collected, as `Step` and `Emit` say |
| EnvelopeLoopback.ReceiveAll | tests/simple.cpp:47-71 | draining the FIFO into the reader collects exactly the messages and errors `Run` predicts, and empties the FIFO |
| EnvelopeLoopback.Loopback | tests/simple.cpp:36-73 | the escape test: a message sent twice through the FIFO arrives twice, intact, with no checksum error; a code the reader refuses is not sent and nothing arrives |
| CobsFormat.StuffStep | include/libucomm/cobs_envelope.h:238-253 | each byte keeps the open block below 254 bytes |
| CobsFormat.Stuffed | include/libucomm/cobs_envelope.h:232-256 | the stuffing state: the open block is at most 253 bytes and neither part holds a zero |
| CobsFormat.ClosedPart | include/libucomm/cobs_envelope.h:232-256 | the bytes the finished blocks stand for, followed by the open block, are the input |
| CobsFormat.Stuff | include/libucomm/cobs_envelope.h:232-284 | what the writer stuffs for a packet's bytes: at least one byte more, and at most one more per 254 besides |
| CobsFormat.CobsFrame | include/libucomm/cobs_envelope.h:205-284 | the wire image of one packet: it opens with a zero and a non-zero code byte and is at least three bytes longer than payload and checksum, four when terminated |
| CobsFormat.StuffHasNoZero | include/libucomm/cobs_envelope.h:26-36 | the stuffed form holds no zero byte |
| CobsFormat.FrameZeros | include/libucomm/cobs_envelope.h:26-36 | a frame holds a zero exactly at its start and, when terminated, at its end |
| CobsFormat.StuffedLengthStep | include/libucomm/cobs_envelope.h:238-253 | each byte adds one stuffed byte, two when it completes a 254-byte block |
| CobsFormat.StuffedSnoc | include/libucomm/cobs_envelope.h:238-253 | stuffing one more byte is one `StuffStep` |
| CobsFormat.ClosedPartSnoc | include/libucomm/cobs_envelope.h:238-253 | a zero or a 254th byte moves the open block into the finished part |
| CobsFormat.StuffedLengthMonotone | include/libucomm/cobs_envelope.h:232-256 | appending bytes never shortens the stuffed form |
| CobsFormat.StuffedLengthBounds | include/libucomm/cobs_envelope.h:232-256 | the COBS overhead: at least one stuffed byte per byte, at most one extra per 254 |
| CobsFormat.StuffedOverhead | include/libucomm/cobs_envelope.h:238-253 | each extra stuffed byte is paid for by 254 input bytes |
| CobsDecode.FinishFrame | include/libucomm/cobs_envelope.h:447-484 | `finish`: always waits for a code next; FRAME_ERROR exactly when fewer bytes than a checksum plus the implied zero arrived |
| CobsDecode.FinishDeliversChecked | include/libucomm/cobs_envelope.h:460-483 | a delivered message is a prefix of the stored bytes whose stored little-endian sum matches its checksum |
| CobsDecode.FinishVerdict | include/libucomm/cobs_envelope.h:460-483 | the checksum decides: a mismatch keeps the bytes without the implied zero, a match drops the sum too |
| CobsDecode.Step | include/libucomm/cobs_envelope.h:375-445 | `take`: keeps the buffer bound; a zero always readies the reader for a code; a report other than NEED_MORE_DATA comes exactly from a zero inside a packet |
| CobsDecode.CobsReader.View | include/libucomm/cobs_envelope.h:186-193 | the reader's fields as a machine state within the buffer bound |
| CobsDecode.CobsReader.constructor | include/libucomm/cobs_envelope.h:369-373 | a new reader waits for a zero |
| CobsDecode.CobsReader.Take | include/libucomm/cobs_envelope.h:375-445 | the new state and the result are exactly `Step` of the old state |
| CobsDecode.CobsReader.Finish | include/libucomm/cobs_envelope.h:447-484 | the new state and the result are exactly `FinishFrame` of the old state |
| CobsDecode.CobsReader.ChecksumOf | include/libucomm/cobs_envelope.h:464-468 | the generator, reset and fed the code byte and the first n stored bytes, gives their digest |
| CobsDecode.CobsReader.MsgCodeValue | include/libucomm/cobs_envelope.h:143-144 | `msgCode()` is the code of the current state |
| CobsDecode.CobsReader.MakeReader | include/libucomm/cobs_envelope.h:180-181 | a window over exactly the decoded bytes, at the start |
| CobsStream.Emit | include/libucomm/cobs_envelope.h:124-130 | a step delivers a message exactly when it reports NEW_MESSAGE |
| CobsStream.RunAppend | include/libucomm/cobs_envelope.h:375-445 | feeding `a + b` is feeding `a`, then `b` from where `a` left the reader |
| CobsStream.RunOne | include/libucomm/cobs_envelope.h:375-445 | feeding one byte is one `take`, with its message and errors counted |
| CobsStream.RunCons | include/libucomm/cobs_envelope.h:375-445 | feeding `c` then the rest is one step followed by the rest |
| CobsStream.RunQuiet | include/libucomm/cobs_envelope.h:444 | a NEED_MORE_DATA step delivers nothing and counts nothing |
| CobsStream.RunAfterQuiet | include/libucomm/cobs_envelope.h:444 | a quiet prefix only moves the state |
| CobsStream.RunQuietAppend | include/libucomm/cobs_envelope.h:444 | two quiet runs make a quiet run |
| CobsStream.IdleZeroStep | include/libucomm/cobs_envelope.h:381-392 | a zero outside a packet readies the reader for a message code |
| CobsStream.CloseStep | include/libucomm/cobs_envelope.h:393-395 | a zero where a block code is expected runs `finish` |
| CobsStream.MsgCodeStep | include/libucomm/cobs_envelope.h:385-392 | a non-zero message byte sets the code to one less and empties the buffer |
| CobsStream.CodeStep | include/libucomm/cobs_envelope.h:397-412 | code 1 stores a zero; any other code opens a block of `code - 1` bytes |
| CobsStream.DataStep | include/libucomm/cobs_envelope.h:414-441 | a data byte is stored; the block's last byte adds the implied zero unless the code was 0xFF |
| CobsStream.BlockDataRun | include/libucomm/cobs_envelope.h:414-441 | a block's bytes that fit are stored, followed by the implied zero unless its code is 0xFF |
| CobsStream.ChunkRun | include/libucomm/cobs_envelope.h:393-441 | a code byte and its block decode to the block and its implied zero |
| CobsStream.ClosingChunk | include/libucomm/cobs_envelope.h:240-249 | a zero or a 254th byte appends the block with its code to the finished part |
| CobsStream.ClosedByZero | include/libucomm/cobs_envelope.h:240-244 | a block closed by a zero decodes to its bytes and that zero |
| CobsStream.ClosedByLength | include/libucomm/cobs_envelope.h:247-249 | a full 254-byte block decodes to its bytes alone |
| CobsStream.ClosedRun | include/libucomm/cobs_envelope.h:393-441 | the finished blocks decode to exactly the bytes they stand for |
| CobsStream.StuffRun | include/libucomm/cobs_envelope.h:393-441 | the reader decodes the stuffed form of s to s and the last block's implied zero |
| CobsStream.StuffSplit | include/libucomm/cobs_envelope.h:266-271 | the stuffed form is the finished blocks and the last block with its code, standing for s and a zero |
| CobsStream.FinishChecks | include/libucomm/cobs_envelope.h:447-484 | on a closing zero after payload and sum, the message is delivered exactly when the sum is the checksum of code byte and payload |
| CobsStream.BodyRun | include/libucomm/cobs_envelope.h:385-441 | code byte and stuffed body decode to payload, sum and the implied zero |
| CobsStream.CloseRun | include/libucomm/cobs_envelope.h:414-416 | the closing zero delivers or counts one checksum error, by the sum |
| CobsStream.TerminatedBodyRun | include/libucomm/cobs_envelope.h:375-484 | code byte, stuffed body and zero deliver exactly when the sum matches |
| CobsStream.FrameParts | include/libucomm/cobs_envelope.h:258-284 | the frame is a zero, the code byte, the stuffed payload and sum, and the terminating zero; the sum reads back as the digest |
| CobsStream.FrameRoundTrip | include/libucomm/cobs_envelope.h:205-284 | after its leading zero, a terminated frame delivers exactly its message and no error |
| CobsStream.FrameRoundTripFromIdle | tests/simple_cobs.cpp:36-93 | from idle, a terminated frame delivers exactly its message, with no checksum or frame error |
| CobsStream.TwoFrames | tests/simple_cobs.cpp:44-92 | two terminated frames in a row deliver both messages, in order, with no error |
| CobsStream.OpenBodyRun | include/libucomm/cobs_envelope.h:375-445 | an unterminated frame leaves the decoded packet pending |
| CobsStream.UnterminatedFrame | include/libucomm/cobs_envelope.h:273-279 | without the terminating zero nothing is delivered yet |
| CobsStream.UnterminatedThenTerminated | include/libucomm/cobs_envelope.h:77-79 | an unterminated frame is completed by the next frame's leading zero: both messages arrive, in order |
| CobsStream.ChangedPayloadMismatch | include/libucomm/cobs_envelope.h:463-477 | a payload byte changed by an amount the checksum sees no longer matches the sent sum |
| CobsStream.ChangedPayloadRejected | tests/simple_cobs.cpp:95-139 | the corruption test: a frame with one such byte changed delivers nothing and counts exactly one checksum error |
| CobsEncode.LayoutZero | include/libucomm/cobs_envelope.h:240-244 | a zero closes the open block: its code is patched in and a new slot reserved |
| CobsEncode.LayoutAppend | include/libucomm/cobs_envelope.h:245-248 | a non-zero byte joins the open block and the code grows by one |
| CobsEncode.LayoutFull | include/libucomm/cobs_envelope.h:247-249 | the 254th byte closes the block with code 0xFF |
| CobsEncode.LayoutClose | include/libucomm/cobs_envelope.h:266-271 | patching the last code leaves exactly the header and the stuffed bytes before the cursor |
| CobsEncode.LayoutRoom | include/libucomm/cobs_envelope.h:232-256 | the room the next byte needs is its stuffed length |
| CobsEncode.FrameLength | include/libucomm/cobs_envelope.h:258-284 | a frame is three bytes plus the stuffed body, plus the terminator |
| CobsEncode.FrameLengthBounds | include/libucomm/cobs_envelope.h:258-284 | frame length bounds: between 3 + n and 3 + n + n/254 (plus the terminator) for n payload and checksum bytes |
| CobsEncode.CobsWriter.constructor | include/libucomm/cobs_envelope.h:199-203 | a writer on the given region with a fresh checksum |
| CobsEncode.CobsWriter.StartEnvelope | include/libucomm/cobs_envelope.h:205-230 | succeeds exactly when the region has more than two bytes and the code is below 255; then the header is laid out and nothing is stuffed yet; on failure the region is untouched |
| CobsEncode.CobsWriter.WriteAndChecksum | include/libucomm/cobs_envelope.h:306-316 | the byte always goes to the checksum; it is stored exactly when the region has room |
| CobsEncode.CobsWriter.FinishBlock | include/libucomm/cobs_envelope.h:318-330 | the code is always patched in; a new code slot is reserved exactly when there is room |
| CobsEncode.CobsWriter.WriteByte | include/libucomm/cobs_envelope.h:238-253 | one byte of `write` succeeds exactly when its stuffed length fits, keeping the region equal to the header and stuffed bytes |
| CobsEncode.CobsWriter.WriteZero | include/libucomm/cobs_envelope.h:240-244 | the zero branch, with the same guarantee |
| CobsEncode.CobsWriter.WriteNonZero | include/libucomm/cobs_envelope.h:245-250 | the non-zero branch, with the same guarantee |
| CobsEncode.CobsWriter.Write | include/libucomm/cobs_envelope.h:232-256 | succeeds exactly when all stuffed data fits; the region then holds the header and the stuffed bytes sent so far |
| CobsEncode.CobsWriter.EndEnvelope | include/libucomm/cobs_envelope.h:258-284 | succeeds exactly when the terminated frame fits; then the region starts with the frame and the returned length is its length |
| CobsEncode.CobsWriter.Send | include/libucomm/cobs_envelope.h:295-304 | `send`: succeeds exactly when the code is below 255 and the terminated frame fits; the region then holds exactly the frame |
| CobsLoopback.ReceiveStep | tests/simple_cobs.cpp:49-51 | one turn of the receiving loop keeps the collected messages in line with `Run` |
| CobsLoopback.Receive | tests/simple_cobs.cpp:51-89 | one `take` and its message or error collected, as `Step` and `Emit` say |
| CobsLoopback.ReceiveAll | tests/simple_cobs.cpp:49-90 | feeding every byte collects exactly the messages and errors `Run` predicts |
| CobsLoopback.Loopback | tests/simple_cobs.cpp:36-93 | the COBS test: a message written twice by one writer, each packet handed on as `packetComplete` reports it, arrives twice, intact, with no error |
| Lists.Items | include/libucomm/list.h:112-122 | the elements' image is `width` bytes per element |
| Lists.ListImage | include/libucomm/list.h:104-122 | a list's image is the count field followed by the elements |
| Lists.Available | include/libucomm/list.h:62-73 | the elements a reader gets: never more than the count |
| Lists.ItemsAppend | include/libucomm/list.h:120-121 | the image of a concatenation is the concatenation of the images |
| Lists.AvailableOfItems | include/libucomm/list.h:62-73 | reading `n` elements back from an image of `n` elements gives those elements, whatever follows |
| Lists.ListImageRoundTrip | include/libucomm/list.h:39-73 | the count field of a list image reads back as the length, and the elements after it as the elements |
| Lists.SkipElements | include/libucomm/list.h:54-55 | skipping element by element succeeds exactly when all the elements are there, and moves past them |
| Lists.ReadableList.constructor | include/libucomm/list.h:74-76 | an empty readable list of the given element and count widths |
| Lists.ReadableList.Remaining | include/libucomm/list.h:36-37 | `remaining()` is the count, an upper bound on what is left to read |
| Lists.ReadableList.Deserialize | include/libucomm/list.h:39-60 | succeeds exactly when the count is there and, unless the list is last, all its elements; the list then starts reading right after the count |
| Lists.ReadableList.Next | include/libucomm/list.h:62-73 | hands out the next element exactly when the count is positive and the bytes are there; the count drops even when the read fails |
| Lists.TakeAll | tests/simple.cpp:58-67 | calling `next` until it fails yields exactly the available elements |
| Lists.ListRoundTrip | tests/simple.cpp:36-73 | a list image deserialises to its count and yields every element back in order |
| Lists.Produce | include/libucomm/list.h:124-140 | the callback's elements, or none when some call fails |
| Lists.CallbackMatchesData | include/libucomm/list.h:110-140 | a callback that returns an array's elements gives the elements the array would |
| Lists.WritableList.Elements | include/libucomm/list.h:104-143 | the elements `serialize` writes, as many as the count and each fitting the element width |
| Lists.WritableList.constructor | include/libucomm/list.h:86-88 | a new writable list is empty |
| Lists.WritableList.SetData | include/libucomm/list.h:90-95 | after `setData` the elements are the first `count` of the array |
| Lists.WritableList.SetCallback | include/libucomm/list.h:97-102 | after `setCallback` the elements are those the callback produces |
| Lists.WritableList.Serialize | include/libucomm/list.h:104-143 | succeeds exactly when all elements exist and the escaped list image fits; then the sink gains the escaped image and the checksum the raw image |
| Lists.WritableList.WriteItems | include/libucomm/list.h:118-122 | the element loop over direct data: the same guarantee, element by element |
| Lists.WritableList.WriteProduced | include/libucomm/list.h:124-140 | the callback loop: stops at the first failing call or write, with the same guarantee |
| Lists.WriteOne | include/libucomm/list.h:131-138 | one element is written exactly when its escaped image fits |
| Lists.WriteBlock | include/libucomm/list.h:112-116 | integral direct data in one `write`, with the same guarantee |
| Lists.Longer | include/libucomm/list.h:120-140 | more elements never make the escaped image shorter |
| Lists.LongerAt | include/libucomm/list.h:120-140 | a prefix of the elements never needs more room than all of them |
| Lists.NoRoomForAll | include/libucomm/list.h:133-136 | an element that did not fit means the whole list cannot fit |
| Lists.NoneStaysNone | include/libucomm/list.h:129 | once the callback has failed, the list has no elements |
| Lists.SomeExtends | include/libucomm/list.h:127-129 | when all calls succeed, every prefix of the calls gives the prefix of the elements |

## Left out

- I/O is not modelled. The writer's sink and the readers' byte source are the
  test FIFO `BufferIO`. The COBS writer's `BufferedWriter` is an array.
- BufferIO's `dataPointer`, `dataSize` and `packetComplete` are declared in
  tests/bufferio.h but defined nowhere. The COBS writer's region is therefore
  a plain array, and the `packetComplete` length is `EndEnvelope`'s `length`.
- BufferIo.BufferIO.WriteChar: on success the source falls off the end of the
  function without a return value (undefined behaviour in C++). The model
  returns true, as the library's tests evidently expect.
- The COBS region holds one packet. The source restarts at `dataPointer()` for
  each packet; what happens to a previous packet depends on `BufferedWriter`,
  which is not part of this model.
- Calls that the source makes after an operation has failed are not modelled.
  For example, `write` after a refused `startEnvelope` acts on an undefined
  cursor. Each method's contract covers its own failure and success.
- Envelope.EnvelopeWriter: the escape writer is modelled for the two modular
  sums only. With Fletcher-16 its `endEnvelope` sends one byte of a 16-bit
  sum. The library pairs the escape envelope with the inverted modular sum.
  The escape reader itself handles all three algorithms.
- Registers and counts that the source leaves uninitialised start at zero:
  - the escape reader's `m_msgCode` and `m_idx` before the first packet
    opens, and the COBS reader's `m_msgCode` and `m_idx` likewise (both
    constructors set only `m_state`);
  - the generators' registers before the first `reset`;
  - the writable list's `m_count` in `MODE_EMPTY`;
  - the readable list's count before `deserialize`.
- Window.Reader: the window over a delivered message is a copy of the
  message's bytes, taken when the window is made. The source's `Reader`
  reads the envelope reader's live `m_buffer` and `m_idx` through a pointer,
  so in the source a window changes when the envelope reader takes more
  bytes. That aliasing is not modelled.
- Structured list elements (`T::serialize`/`T::deserialize`, generated code)
  are `width`-byte little-endian values, like integral elements. The generated
  serialisation code of messages is not part of this model.
- Lists.WritableList.Serialize: integral direct data is written with one
  `write` call. A failure in the middle of that call is reported as a failure
  of the whole list, just as in the source. The bytes left in the sink after
  a failure are not stated.
- The `operator<<` and `operator>>` wrappers that ignore the results are not
  modelled separately. `EnvelopeLoopback.Send` and `CobsEncode.CobsWriter.Send`
  model the calls they make.
- The code generators (`parse.py`, `libucomm_parse.py`) are not part of this
  model.

## Findings

| source | as written | input that shows it | evidently intended | confidence | as-written member | corrected member |
|---|---|---|---|---|---|---|
| include/libucomm/envelope.h:45-54 | `startEnvelope` sends any message code, but the reader's START2 state (envelope.h:160-169) opens a packet only for a code other than 0xFD, 0xFE and 0xFF. A frame with such a code is never delivered. | `FF FF FF FD chk`, the frame of code 0xFF with an empty payload. With the plain modular sum, chk is 0xFF: the reader stays in START2 and delivers nothing. With the inverted sum, which the library pairs with this envelope, chk is 0x00: START2 opens a packet with code 0 and the reader is left in DATA, so the next good frame arrives as a restart and is rejected with a checksum error (`ReservedCodeOpensPacket`, `RestartedFrameRejected`) | the writer refuses those codes, as the COBS writer refuses code 255 (cobs_envelope.h:205-230) | not executed; medium | EnvelopeStream.ReservedCodeLost | EnvelopeLoopback.SendChecked |
| include/libucomm/envelope.h:202-207 | when a start-of-packet marker `0xFF code` arrives inside an unfinished packet, the reader resets the checksum but does not feed it the new code. The writer always seeds the checksum with the code (envelope.h:50-51). | a packet whose tail was lost, e.g. `FF 05 AA`, followed by a whole frame `FF 05 BB FF FD chk` with the inverted modular sum: the second frame is rejected with a checksum error | the restart seeds the checksum with the new code, as the START2 branch does (envelope.h:160-168), so the frame is delivered | not executed; high | EnvelopeStream.RestartedFrameRejected | EnvelopeStream.RestartedFrameDeliveredWhenSeeded |
| include/libucomm/envelope.h:170-175 | when a byte arrives with the buffer full, the reader drops the packet by going back to START1 in the middle of the frame. The rest of the frame is then read as new traffic: an escaped 0xFF leaves the reader in START2, and the next payload byte opens a packet the writer never sent. | `MaxPacketSize` 2, modular sum, the frame of code 0xFB and payload `1 2 3 0xFF 7 8`: the message 7 carrying `8` is delivered, because the whole frame and that packet have the same sum, 0x0F. More often the trailer reports a spurious checksum error. | after a drop, the reader skips the rest of the frame up to `0xFF 0xFD` and the checksum byte, so that an oversize frame delivers nothing and the next frame is delivered | not executed; high | EnvelopeStream.OversizeFramePhantom | EnvelopeStream.OversizeFrameSkipped |
