# record_iq_blade capture loop, modelled in Dafny

`record_iq_blade` records I/Q samples from a bladeRF receiver into one file per
dwell. After configuring the device, `main` runs a do-while loop. Each pass:

- lowers the receive gain by 1 dB if the previous dwell saturated, and a failed
  gain-set ends the program with status 1;
- stamps the gain into the packet header;
- clears the sample buffer and the receive metadata;
- receives `sampleLength` interleaved I/Q pairs;
- classifies the receive as an error, an overrun (which bumps a 32-bit counter)
  or a clean read, which is then scanned for clipped samples;
- stamps the reported sample count into the header;
- writes the header and `2*actual_count` int16 values to a file named after
  the current UTC time, `YYYY_MM_DD_HH_MM_SS_mmm.iq`.

The loop continues while the collection duration has not elapsed. The program
then disables the receiver and returns that call's status.

The project has five modules:

- `Options` is the optional-value datatype.
- `FileNames` is the pure formatting part of `getFilenameStr`. It covers the
  casts of the calendar fields to `uint8_t`/`uint16_t` and the
  `%04d_%02d_%02d_%02d_%02d_%02d_%03d.iq` conversion into the 80-byte buffer.
  A reader `ParseFileName` serves as the formatter's inverse. The proofs cover
  the name's fixed shape and length, the round trip, and that name order is
  time order.
- `Saturation` is the `std::minmax_element` scan over the whole buffer,
  compared against `SAMP_MIN`/`SAMP_MAX`, as a loop over an array. The
  `Saturated` predicate is its specification.
- `CaptureLoop` is the loop as a state machine over values. `Step` is one pass
  and `Run` is the whole loop. The device is an input: each pass consumes a
  `DwellInput`, which holds whether a gain-set would succeed, what
  `bladerf_sync_rx` reported and wrote, and the clock reading for the file
  name. A written file records that clock reading, and its path is
  `FileName` of it (`CaptureFile.Name`). The lemmas state the gain law, the saturation flag, the overrun
  accounting, the header/payload framing and one file per pass.
- `Recording.Session` is the same loop on mutable state. It is a class with
  `rxGain`, `saturated`, `overrunCounter`, the header and the file list as
  fields, and the `iq` buffer as an array that is cleared and refilled in place.
  `Dwell` and `Capture` are proved to refine `Step` and `Run`, so every lemma
  about those holds for the class.

The loop condition reads the wall clock. In the model, each input is one pass
and the loop runs while inputs remain. `Capture` takes at least one input
because the body of a do-while runs at least once.

The code checks no write (lines 318-321), so every pass that does not abort
appends its file.

## Model

| member | source | states |
|---|---|---|
| `FileNames.Unsigned` | cpp/record_iq_blade.cpp:30-36 | conversion to an unsigned type lands in `[0, 2^bits)` and leaves in-range values unchanged |
| `FileNames.StampOf` | cpp/record_iq_blade.cpp:30-36 | the casts of the calendar fields to `uint16_t`/`uint8_t`; for every field `gmtime` can produce for years 0..9999 and a sub-second millisecond count, they are lossless and every field fits its printed width |
| `FileNames.ZeroPadded` | cpp/record_iq_blade.cpp:38 | `%0<w>d` prints only digits, `max(w, digits of n)` of them, and they read back as `n` |
| `FileNames.FixedDigitsValue` | cpp/record_iq_blade.cpp:38 | a number below `10^w`, written as exactly `w` digits, reads back as itself |
| `FileNames.DigitsOfValue` | cpp/record_iq_blade.cpp:38 | every digit string is the fixed-width rendering of its own value |
| `FileNames.FixedDigitsOrder` | cpp/record_iq_blade.cpp:38 | fixed-width digit strings sort as the numbers they denote |
| `FileNames.JoinBound` | cpp/record_iq_blade.cpp:38 | whatever the field values, each group has at most five digits, so the joined fields never exceed 41 characters |
| `FileNames.FileName` | cpp/record_iq_blade.cpp:38 | the formatted name is always shorter than the 80-byte buffer, so `snprintf` never truncates it |
| `FileNames.JoinOrder` | cpp/record_iq_blade.cpp:38 | for fields that fit their widths, the `_`-joined string sorts exactly as the field tuples do and is one-to-one |
| `FileNames.ParseJoin` | cpp/record_iq_blade.cpp:38 | reading a joined string back with the same widths recovers the fields |
| `FileNames.JoinParse` | cpp/record_iq_blade.cpp:38 | any string that reads back as fields is the join of those fields |
| `FileNames.FileNameFormat` | cpp/record_iq_blade.cpp:30-38 | for an in-range stamp the name is year(4)`_`month(2)`_`day(2)`_`hour(2)`_`minute(2)`_`second(2)`_`ms(3)`.iq`, 26 characters |
| `FileNames.FileNameOrder` | cpp/record_iq_blade.cpp:30-38 | for in-range stamps, byte-wise order of names is chronological order of (year, month, day, hour, minute, second, ms), and names are equal exactly when stamps are |
| `FileNames.ParseFileNameInverse` | cpp/record_iq_blade.cpp:30-38 | in-range stamps read back from their names; a name reads back as a stamp only if that stamp is in range and has that name |
| `Saturation.SaturatedAppend` | cpp/record_iq_blade.cpp:309-311 | a buffer made of two parts is saturated exactly when one of the parts is |
| `Saturation.ZeroTailNeverSaturates` | cpp/record_iq_blade.cpp:286 | the zeros `memset` leaves after the received samples never make a buffer saturated |
| `Saturation.MinMaxElement` | cpp/record_iq_blade.cpp:309 | on a non-empty buffer, returns the positions of the first smallest and the last largest value |
| `Saturation.ScanAsWritten` | cpp/record_iq_blade.cpp:309-311 | the scan has no defined result exactly when the buffer is empty; otherwise the result is whether some value is at or below -2048 or at or above 2047 |
| `Saturation.CheckSaturation` | cpp/record_iq_blade.cpp:309-311 | the flag is true exactly when some value of the whole buffer is at or below -2048 or at or above 2047 |
| `CaptureLoop.DoubledU32` | cpp/record_iq_blade.cpp:187 | `2*x` in a 32-bit unsigned type (also `2*meta.actual_count` at line 320) is exact below 2^31 and falls short by 2^32 from there on |
| `CaptureLoop.BufferSizeWraps` | cpp/record_iq_blade.cpp:187 | from `sampleLength = 2^31` on, the computed size is smaller than `2*sampleLength`, and at `2^31` it is 0 |
| `CaptureLoop.Start` | cpp/record_iq_blade.cpp:253-259 | the loop is entered with a buffer of `2*sampleLength` values that is not saturated |
| `CaptureLoop.ActualCount` | cpp/record_iq_blade.cpp:288-314 | `meta.actual_count` as stamped into the header: 0 after a failed receive, since `memset` cleared it, and never more samples than a buffer the device delivers into holds |
| `CaptureLoop.Received` | cpp/record_iq_blade.cpp:286-293 | the buffer after a receive keeps its length |
| `CaptureLoop.Step` | cpp/record_iq_blade.cpp:264-325 | an iteration never changes the buffer's length |
| `CaptureLoop.Run` | cpp/record_iq_blade.cpp:264-325 | the buffer keeps its length for the whole session |
| `CaptureLoop.PayloadLengthWraps` | cpp/record_iq_blade.cpp:320 | a clean dwell of 2^31 samples gets a header of 2^31 samples and a framed payload of 2^32 values, while the value count computed as written is 0 |
| `CaptureLoop.StepGainLaw` | cpp/record_iq_blade.cpp:267-283 | the gain drops by exactly 1 when the previous dwell saturated and is otherwise unchanged; the pass returns 1 exactly when that drop's gain-set fails; otherwise the header records the gain in effect |
| `CaptureLoop.StepSaturation` | cpp/record_iq_blade.cpp:284-311 | after a pass the flag is set exactly when the receive was clean and the device wrote a clipped value |
| `CaptureLoop.UncleanDwellKeepsNextGain` | cpp/record_iq_blade.cpp:284-312 | after an error or overrun dwell the next pass neither aborts nor lowers the gain |
| `CaptureLoop.StepCounts` | cpp/record_iq_blade.cpp:295-303 | the counter goes up by 1 modulo 2^32 exactly on a completed overrun dwell; a pass that does not return writes one file, and one that returns writes none and leaves the counter |
| `CaptureLoop.StepKeepsFiles` | cpp/record_iq_blade.cpp:316-321 | a pass keeps every file written before it |
| `CaptureLoop.StepFrames` | cpp/record_iq_blade.cpp:288-320 | the pass's file is named after its clock reading; its header is `(gain, actual_count)`, with count 0 after an error; it holds `2*actual_count` values, which are what the device wrote followed by zeros |
| `CaptureLoop.RunOneFilePerDwell` | cpp/record_iq_blade.cpp:264-325 | the loop keeps earlier files and writes one file per completed pass; without an abort, one per input; with one, it stops at a pass whose gain-set failed |
| `CaptureLoop.RunGainBounds` | cpp/record_iq_blade.cpp:267-281 | over a session the gain never rises and falls by at most 1 dB per pass |
| `CaptureLoop.RunCountsOverruns` | cpp/record_iq_blade.cpp:299-303 | at the end, the counter equals the number of overrun dwells among the completed passes, modulo 2^32 |
| `CaptureLoop.RunFilesWellFormed` | cpp/record_iq_blade.cpp:314-320 | every file written is framed, and the gains of consecutive files differ by 0 or -1 dB |
| `CaptureLoop.SessionFilesWellFormed` | cpp/record_iq_blade.cpp:253-325 | from the entry state, every session writes only framed files whose gains step down by 0 or 1 dB |
| `CaptureLoop.SessionWritesFirstFile` | cpp/record_iq_blade.cpp:264-283 | the first pass never aborts, so a session writes at least one file, recorded at the configured gain |
| `Recording.Session.constructor` | cpp/record_iq_blade.cpp:253-259 | the session starts in the loop's entry state with a fresh zeroed buffer of `2*sampleLength` values |
| `Recording.Session.Clear` | cpp/record_iq_blade.cpp:286 | every value of the buffer is 0 |
| `Recording.Session.Receive` | cpp/record_iq_blade.cpp:293 | the device's values replace the front of the buffer and the rest is unchanged |
| `Recording.Session.Dwell` | cpp/record_iq_blade.cpp:265-324 | updating the fields and the buffer in place has exactly the effect of one `Step`, including the abort |
| `Recording.Session.Capture` | cpp/record_iq_blade.cpp:264-342 | the loop leaves the session in the state `Run` computes and returns 1 on an aborted pass, otherwise the status of disabling the receiver |

## Left out

- The device setup at lines 68-231 is left out: open, frequency, sample rate, bandwidth, gain mode, gain, sync configuration, RX enable, and the version and serial queries. These are calls into libbladeRF. This includes the failed RX enable at lines 229-231, which closes the device and carries on.
- Every libbladeRF call in the loop is left out. `bladerf_sync_rx` is an input outcome, and so is the success of `bladerf_set_gain`. When a receive fails, the buffer is taken to be as `memset` left it.
- `CaptureLoop.Delivers` assumes the device never reports more samples than the buffer holds and never writes past the buffer. The model does not cover a device that does.
- `CaptureLoop.ActualCount`: a failed receive is taken to leave `meta.actual_count` at the 0 that `memset` put there, so its file is empty. Lines 314 and 320 use whatever the field holds, whatever the status.
- `CaptureLoop.StepFrames`: the payload is `2*actual_count` values, as intended. The 32-bit wrap of that count at line 320 is shown separately by `CaptureLoop.PayloadLengthWraps` (see "## Findings").
- Write failures are not modelled, because the code never detects them (lines 318-321).
- Wall-clock time is left out: `std::chrono`, `gmtime`, the `sampleStartTime` double at line 291 and the float loop condition at line 325. The calendar fields and the number of passes are inputs.
- The float conversion at line 186 is left out: `sampleLength` is a given natural number. `Recording.Session.Capture` takes the receiver-disable status as a given value.
- The `std::execution::par_unseq` policy is left out. The scan is sequential, and the policy does not change its result.
- File I/O is left out. A written file is its name, its header and its int16 payload. This covers:
  - the byte layout of `IqPacket` (`IqPacket.h` is not part of this model) and byte order;
  - the header fields that stay constant across a session (frequency, bandwidth, sample rate, endianness tag, version strings).
- `Recording.Session.Dwell`: two dwells in the same millisecond get the same name, and the second file would overwrite the first. The model keeps both in `files`.
- `Recording.Session.Dwell`: `rxGain` is an `int32_t` in the source. It is an unbounded integer here, so an underflow below `INT32_MIN` after 2^31 saturated dwells is not modelled.
- `CaptureLoop.Start`: before the first pass, `packet.rxGain` is indeterminate in the source. The model sets it to 0, and every pass overwrites it before writing a file.
- Console output, argv parsing, the `strncpy` of version strings and the final report of the overrun count (line 340) are left out.

## Findings

| source | as written | input that shows it | evidently intended | confidence | as-written member | corrected member |
|---|---|---|---|---|---|---|
| cpp/record_iq_blade.cpp:309-311 | `std::minmax_element` on the buffer, then both results dereferenced | `sampleLength == 0` (a dwell shorter than one sample period): the buffer is empty, both iterators are `end()`, and dereferencing them is undefined | an empty buffer is not saturated | high, not executed | `Saturation.ScanAsWritten` | `Saturation.CheckSaturation` |
| cpp/record_iq_blade.cpp:187 | `bufferSize = 2*sampleLength` in `uint32_t` | any `sampleLength >= 2^31`, such as the 2457600000 of a 40 s dwell at 61.44 Msps, gives a `bufferSize` below `2*sampleLength` while `bladerf_sync_rx` still writes `2*sampleLength` values; at exactly `2^31` the size wraps to 0 | a buffer of `2*sampleLength` values | high, not executed | `CaptureLoop.BufferSizeWraps` | `CaptureLoop.Start` |
| cpp/record_iq_blade.cpp:320 | `2*meta.actual_count*sizeof(std::int16_t)` with `2*meta.actual_count` computed in `unsigned int` | with a buffer of `2*sampleLength` values, a clean dwell reporting `actual_count == 2^31`: the header announces 2^31 samples, but the count wraps to 0 and no values are written | the file holds the `2*actual_count` values its header announces | high, not executed | `CaptureLoop.PayloadLengthWraps` | `CaptureLoop.StepFrames` |
