# blinklib neighbour communication, in Dafny

This project models the core of blinklib, the runtime library of the Move38
Blinks hexagonal tiles. It covers:

- the bit-level infrared codec each face uses to talk to the tile next to it;
- the per-face channel built on it, in both builds: face values with acknowledged datagrams, and face values only;
- the 32-bit `Timer`;
- the warm-sleep sequence and the pixel save/restore it relies on;
- the integer utilities of `blinklib.cpp`;
- the integer part of the example sketch "Blink".

Every tick and every main-loop call is one sequential step. The
BlinkBIOS shared blocks are a `Bios` object: the receive records,
the millisecond counter, the button flags and `wokeFlag`, and the start
state. Its vectors (send a packet, postpone sleep, show a colour) append
to an event log. A send's success is an out-parameter the caller cannot
predict. The loop's clock snapshot `now` and `currentMillis()` are
parameters.

Files:

- `common.dfy`: byte, word and u32 types, 32-bit wrap-around, `Option`.
- `timer.dfy`: `Timer.cpp`.
- `irdata.dfy`: `irdata.cpp`. It covers the receive state machine and the transmit frame as a symbol sequence, with the decode-of-encode theorem.
- `bios.dfy`: the BIOS blocks and vectors, and the environment's steps.
- `led.dfy`: `blinklib_led.cpp`.
- `warm_sleep.dfy`: `blinklib_warm_sleep.cpp`.
- `ir_header.dfy`: the `Header` byte and the channel constants.
- `face_channel.dfy`: `blinklib_ir.cpp`.
- `face_value_only.dfy`: `blinklib_ir_face_value_only.cpp`.
- `blinklib_util.dfy`: from `blinklib.cpp`, the button flags, the xorshift generator, `random`, `map`, `sin8_C`, `hasWoken` and `startState`.
- `sketch.dfy`: `AS7/blink/Sketches/Blink/main.cpp`.

Imperative source code stays imperative here:

- The receive records, face tables, timers, pixel buffers and sketch globals are classes and arrays.
- Their methods are proved against specification functions: `Tick`, `ReceiveUpTo`, `SendUpTo`, `EnterResult`, `RandomSpec`, `LoopStep`.
- The properties are lemmas about those functions.

Integer widths follow the AVR:

- `int` and `unsigned int` are 16 bits wide, so the `word` sums in `random` and `map` wrap modulo 2^16.
- `millis_t` and `Timer` deadlines wrap modulo 2^32.

## Model

| member | source | states |
|---|---|---|
| Common.Wrap32 | cores/blinklib/Timer.cpp:18 | 32-bit unsigned wrap: identity below 2^32, never larger than its argument |
| Timers.Timer.constructor | cores/blinklib/Timer.cpp:12-14 | a fresh timer's deadline is 0 |
| Timers.Timer.IsExpired | cores/blinklib/Timer.cpp:16 | expired iff the clock is strictly past the deadline |
| Timers.Timer.Set | cores/blinklib/Timer.cpp:18 | the deadline becomes now + ms, wrapped to 32 bits |
| Timers.Timer.GetRemaining | cores/blinklib/Timer.cpp:20-31 | the answer is the remaining-time function of deadline and clock |
| Timers.Timer.Add | cores/blinklib/Timer.cpp:33-44 | the deadline becomes the saturating sum |
| Timers.Timer.Never | cores/blinklib/Timer.cpp:46 | the deadline becomes ULONG_MAX |
| Timers.SetZeroNotExpiredAtOnce | cores/blinklib/Timer.cpp:16-18 | after set(0) the timer is not expired at the same clock value |
| Timers.SetDeadline | cores/blinklib/Timer.cpp:16-18 | set(ms) gives (now + ms) mod 2^32; without wrap it is unexpired up to now + ms and expired after |
| Timers.RemainingMeaning | cores/blinklib/Timer.cpp:20-31 | remaining is 0 iff the clock has reached the deadline; otherwise clock + remaining == deadline |
| Timers.AddSaturates | cores/blinklib/Timer.cpp:33-44 | add yields min(old + ms, NEVER) and never lowers the deadline |
| Timers.NeverDoesNotExpire | cores/blinklib/Timer.cpp:10-46 | a NEVER deadline is unexpired at every clock value |
| Timers.ZeroTimerPreExpired | cores/blinklib/Timer.cpp:12-16 | a zero deadline is expired iff the clock is past 0 |
| IrData.OddParity | libraries/blinklib/src/irdata.cpp:61-66 | the result is a single bit, 0 or 1 |
| IrData.OddParityCounts | libraries/blinklib/src/irdata.cpp:61-66 | oddParity(p) is 1 iff p has an odd number of one bits, i.e. the XOR of its 8 bits |
| IrData.ParityOfCounts | libraries/blinklib/src/irdata.cpp:128-149 | the running XOR of a bit sequence is true iff it holds an odd number of trues |
| IrData.GotByteOverwrites | libraries/blinklib/src/irdata.cpp:99-111 | gotByte always stores the byte; it sets the overflow bit iff a byte was waiting unread |
| IrData.UnsyncedBitIgnored | libraries/blinklib/src/irdata.cpp:124-126 | with inputBuffer 0 a received bit changes nothing |
| IrData.DataBitShifted | libraries/blinklib/src/irdata.cpp:152-162 | before the sentinel reaches the top, a bit is shifted into inputBuffer and nothing else changes |
| IrData.ParityOutcome | libraries/blinklib/src/irdata.cpp:128-149 | on the eighth bit: if oddParity differs from the bit, the byte is delivered through gotByte; otherwise the parity error bit is set; inputBuffer returns to 0 either way |
| IrData.ParityCheck | libraries/blinklib/src/irdata.cpp:128-149 | the parity bit is accepted iff it equals the XOR of the 7 data bits (the sentinel flips oddParity); on failure lastValue is kept and ERRORBIT_PARITY is set |
| IrData.PatternsExclusive | libraries/blinklib/src/irdata.cpp:249-269 | the 0-bit, both 1-bit and the sync patterns never match the same bitstream, so the priority order is only a tie-break on impossible overlaps |
| IrData.ErrorsOnlyMidFrame | libraries/blinklib/src/irdata.cpp:223-275 | dropout and noise reset only when inputBuffer is non-zero, and they zero it; the bitstream is always (old << 1) \| bit |
| IrData.TickBySamples | libraries/blinklib/src/irdata.cpp:249-275 | read off the previous samples and the new one: one pulse then two empty samples delivers a 0-bit; two pulses, adjacent or one apart, then two empty samples a 1-bit; a third pulse in a row syncs; mid-frame only, five empty samples reset with the dropout bit and pulse-gap-pulse-gap-pulse with the noise bit; any other sample only enters the register |
| IrData.SyncDecodes | libraries/blinklib/src/irdata.cpp:168-172 | four sync pulses and the gap leave inputBuffer == 1 and lastValue unchanged |
| IrData.DataSymbolDecodes | libraries/blinklib/src/irdata.cpp:249-262 | the samples of one transmitted bit (one pulse for 0, two pulses for 1, either timing) deliver exactly that bit to gotBit |
| IrData.DataBitsDecode | libraries/blinklib/src/irdata.cpp:152-162 | a run of data bits is shifted into inputBuffer in order, with no error and no delivered byte |
| IrData.ShiftInDataBits | libraries/blinklib/src/irdata.cpp:373-387 | shifting data bits 6..0 into the sentinel 1 gives 0x80 \| (data & 0x7F) |
| IrData.FrameDecodes | libraries/blinklib/src/irdata.cpp:116-172 | a frame with any bits decodes to the shifted-in byte iff its parity bit is the XOR of its bits, and sets the parity error otherwise |
| IrData.RoundTrip | libraries/blinklib/src/irdata.cpp:352-389 | the samples of irBitmaskSendData's frame, at any pulse timing, make the receiver hold lastValue == 0x80 \| (data & 0x7F) |
| IrData.SingleBitErrorDetected | libraries/blinklib/src/irdata.cpp:128-149 | flipping any one data bit in transit is caught: lastValue is kept and the parity error bit is set |
| IrData.FlipChangesParity | libraries/blinklib/src/irdata.cpp:383 | flipping one bit flips the running XOR |
| IrData.BitmaskSendData | libraries/blinklib/src/irdata.cpp:352-389 | the bit-walker loop emits the sync, bits 6..0 of the data most significant first, and their XOR as the parity bit |
| IrData.Transceiver.constructor | libraries/blinklib/src/irdata.cpp:94 | six fresh receive records, all fields zero, as the zero-filled global array |
| IrData.RxState.constructor | libraries/blinklib/src/irdata.cpp:71-88 | a receive record starts all zero and is tagged with the face whose slot it fills |
| IrData.RxState.GotByte | libraries/blinklib/src/irdata.cpp:99-111 | the record becomes gotByte's result |
| IrData.RxState.GotBit | libraries/blinklib/src/irdata.cpp:116-164 | the record becomes gotBit's result |
| IrData.RxState.Sync | libraries/blinklib/src/irdata.cpp:168-172 | the record becomes sync's result |
| IrData.RxState.Reset | libraries/blinklib/src/irdata.cpp:177-195 | the record becomes reset's result |
| IrData.RxState.Update | libraries/blinklib/src/irdata.cpp:223-275 | one face's tick: the record becomes Tick of its old value and the sample bit |
| IrData.Transceiver.UpdateIRComs | libraries/blinklib/src/irdata.cpp:203-277 | every face k ticks on bit k of the sample, and on no other bit |
| IrData.Transceiver.GetErrorBits | libraries/blinklib/src/irdata.cpp:283-300 | returns the error bits and leaves them 0; nothing else changes |
| IrData.Transceiver.IsReadyOnFace | libraries/blinklib/src/irdata.cpp:304-306 | ready iff lastValue is non-zero |
| IrData.Transceiver.GetData | libraries/blinklib/src/irdata.cpp:310-324 | returns lastValue & 0x7F and clears lastValue; nothing else changes |
| IrData.Transceiver.SendData | libraries/blinklib/src/irdata.cpp:392-396 | sends the frame of the data on exactly the one face's bit |
| IrData.Transceiver.RxInProgressMask | libraries/blinklib/src/irdata.cpp:403-419 | bit k of the mask is set iff face k has inputBuffer != 0; no bit outside ALL_IR_BITS |
| IrData.Transceiver.BroadcastData | libraries/blinklib/src/irdata.cpp:398-430 | the two masks are disjoint and together cover ALL_IR_BITS: faces with a frame in progress go in the first, the rest in the second |
| Bios.Consumed | cores/blinklib/blinklib_ir.cpp:218-219 | marking a face's buffer read clears only its ready flag |
| Bios.AllConsumed | cores/blinklib/blinklib_warm_sleep.cpp:43-47 | every face's ready flag is cleared, the buffers are kept |
| Bios.Bios.Consume | cores/blinklib/blinklib_ir.cpp:219 | `packetBufferReady = 0` on one face: only that face's ready flag is cleared, nothing else in the BIOS changes |
| Bios.Bios.SendPacket | cores/blinklib/blinklib_ir.cpp:120-130 | a send appends the packet to the log, whether or not the BIOS took it |
| LedState.Led.constructor | cores/blinklib/blinklib_led.cpp:13 | the saved copy is a fresh zero-filled array of PIXEL_COUNT pixels, apart from the screen |
| LedState.Led.SaveState | cores/blinklib/blinklib_led.cpp:15-18 | the saved copy equals the pixel buffer, which is unchanged |
| LedState.Led.RestoreState | cores/blinklib/blinklib_led.cpp:20-23 | the pixel buffer equals the saved copy, which is unchanged |
| WarmSleep.FadeStep | cores/blinklib/blinklib_warm_sleep.cpp:85 | each send lowers the byte brightness by one, wrapping at 0 |
| WarmSleep.WakeLevel | cores/blinklib/blinklib_warm_sleep.cpp:184-191 | the wake fade starts from 0, so its k-th colour is 255 - k |
| WarmSleep.FloodEntries | cores/blinklib/blinklib_warm_sleep.cpp:81-89 | the k-th step of a flood shows shade k and then sends on face k mod 6 |
| WarmSleep.FloodSendCount | cores/blinklib/blinklib_warm_sleep.cpp:81-89 | after i steps face f has been sent to i/6 times, plus one if f < i mod 6 |
| WarmSleep.SleepAnimationShape | cores/blinklib/blinklib_warm_sleep.cpp:77-92 | 30 force-sleep sends in face order, exactly 5 per face; brightness runs 30 down to 1 and ends at 0 |
| WarmSleep.WakeAnimationShape | cores/blinklib/blinklib_warm_sleep.cpp:184-195 | 30 NOP wake sends in face order, exactly 5 per face, with colours 255 down to 226 |
| WarmSleep.WaitStops | cores/blinklib/blinklib_warm_sleep.cpp:131-157 | the wait ends only on a NOP wake packet, the PRESSED flag or wokeFlag == 0; every packet it saw is consumed; it sends nothing |
| WarmSleep.FallAsleep | cores/blinklib/blinklib_warm_sleep.cpp:52-129 | after the sleep phase the tile is in the waiting state with no ready packet |
| WarmSleep.EnterOutcome | cores/blinklib/blinklib_warm_sleep.cpp:51-200 | Enter restores the saved clock, sends both floods around an OFF colour, postpones BIOS sleep twice, clears every buffer, and ends only for one of the three wake reasons |
| WarmSleep.Sleeper.constructor | cores/blinklib/blinklib_warm_sleep.cpp:28-30 | has_warm_woken_flag_ and the timer start at 0 |
| WarmSleep.Sleeper.ResetTimer | cores/blinklib/blinklib_warm_sleep.cpp:49 | the warm-sleep timer expires 600000 ms from now |
| WarmSleep.Sleeper.ClearPacketBuffers | cores/blinklib/blinklib_warm_sleep.cpp:43-47 | all six ready flags are cleared and nothing else changes |
| WarmSleep.Sleeper.SleepAnimation | cores/blinklib/blinklib_warm_sleep.cpp:79-89 | the log gains the sleep flood and the brightness counter ends at 0 |
| WarmSleep.Sleeper.WakeAnimation | cores/blinklib/blinklib_warm_sleep.cpp:184-195 | the log gains the wake flood |
| WarmSleep.Sleeper.ScanForWake | cores/blinklib/blinklib_warm_sleep.cpp:143-156 | reports a NOP wake packet iff one was ready, and consumes every ready buffer |
| WarmSleep.Sleeper.AwaitWake | cores/blinklib/blinklib_warm_sleep.cpp:122-157 | the loop's final state is the wait function's |
| WarmSleep.Sleeper.FallAsleepPhase | cores/blinklib/blinklib_warm_sleep.cpp:52-129 | saves the pixels and the clock and reaches the waiting state |
| WarmSleep.Sleeper.WakePhase | cores/blinklib/blinklib_warm_sleep.cpp:159-199 | restores the clock, sets has_warm_woken_flag_, resets the timer, clears the buffers, sends the wake flood, restores the pixels |
| WarmSleep.Sleeper.Enter | cores/blinklib/blinklib_warm_sleep.cpp:51-200 | the BIOS ends in EnterResult's state; the flag is 1, the timer is reset, and the pixel buffer at exit equals the one at entry |
| IrHeader.Encode | cores/blinklib/blinklib_ir.cpp:43-52 | bit 7 is non_special and bit 6 is postpone_sleep |
| IrHeader.Decode | cores/blinklib/blinklib_ir.cpp:43-52 | reads non_special from bit 7 and postpone_sleep from bit 6 |
| IrHeader.DecodeEncode | cores/blinklib/blinklib_ir.cpp:43-52 | decoding an encoded header gives it back |
| IrHeader.EncodeDecode | cores/blinklib/blinklib_ir.cpp:43-52 | encoding a decoded byte gives it back: the union has no spare bits |
| IrHeader.NextSequence | cores/blinklib/blinklib_ir.cpp:317 | (seq % 7) + 1 is in 1..7 and differs from seq |
| FaceChannel.ZeroedFaceAlone | cores/blinklib/blinklib_ir.cpp:38-59 | a zero-filled face is well formed, reads inValue 0 with no datagram waiting, and is expired exactly when the clock is past 0; the zero header byte is the zero header |
| FaceChannel.Acknowledge | cores/blinklib/blinklib_ir.cpp:186-207 | the face stays well formed: lengths within the 16-byte slots |
| FaceChannel.AllPostponing | cores/blinklib/blinklib_ir.cpp:101 | every face gets postpone_sleep set and nothing else changes |
| FaceChannel.HandleForeign | cores/blinklib/blinklib_ir.cpp:143 | a packet that is not user data changes nothing |
| FaceChannel.HandleNotNormal | cores/blinklib/blinklib_ir.cpp:208-214 | a packet without a non-special header only refreshes the face, and puts the tile to sleep iff both bytes are the trigger value |
| FaceChannel.HandleNormal | cores/blinklib/blinklib_ir.cpp:171-207 | a non-special header refreshes the face, then acts on the header |
| FaceChannel.ForeignPacketIgnored | cores/blinklib/blinklib_ir.cpp:140-143 | a non-user packet is only consumed |
| FaceChannel.IdleFaceUntouched | cores/blinklib/blinklib_ir.cpp:140 | a face without a ready packet is left as is |
| FaceChannel.UserPacketSeen | cores/blinklib/blinklib_ir.cpp:146-164 | expiry becomes now + 200, sendTime becomes now (so not yet expired), inValue becomes the packet's first byte; the outbound sequence and postpone flag are kept |
| FaceChannel.AckClearsOutbound | cores/blinklib/blinklib_ir.cpp:186-190 | the outbound datagram is dropped iff the incoming ack_sequence equals the local sequence |
| FaceChannel.DatagramAccepted | cores/blinklib/blinklib_ir.cpp:192-206 | a new sequence number overwrites the inbound slot and ack_sequence, whether or not the old datagram was read; a repeated one only sets send_header |
| FaceChannel.ResendIgnored | cores/blinklib/blinklib_ir.cpp:194-206 | receiving the same datagram packet twice changes nothing more than send_header |
| FaceChannel.RequestFromHeader | cores/blinklib/blinklib_ir.cpp:171-214 | a postpone request iff the header is non-special with postpone_sleep; sleep iff both bytes are the trigger value (which parses as special) |
| FaceChannel.MaybeEnableIdempotent | cores/blinklib/blinklib_ir.cpp:97-106 | an immediate second call changes nothing |
| FaceChannel.MaybeEnableEffect | cores/blinklib/blinklib_ir.cpp:97-106 | when the lockout has expired: all faces postpone, lockout now + 2000, warm-sleep timer now + 600000; otherwise nothing |
| FaceChannel.ReceiveConsumesAll | cores/blinklib/blinklib_ir.cpp:137-225 | after ReceiveFaceData no face has a ready packet |
| FaceChannel.SendShape | cores/blinklib/blinklib_ir.cpp:235-276 | a due face sends [outValue, header, datagram] of length 1 + [header needed] + outDatagramLen ≤ 18 with non_special set; send_header and postpone_sleep are cleared only on success; outDatagramLen is untouched; next send at current + 150 |
| FaceChannel.NotDueSilent | cores/blinklib/blinklib_ir.cpp:235 | a face not yet due sends nothing and is unchanged |
| FaceChannel.SendReceiveRoundTrip | cores/blinklib/blinklib_ir.cpp:164-207 | a packet one face sends, received by the facing tile, delivers its value, its datagram (new sequence) or a resend mark (old sequence), its ack, and its postpone request |
| FaceChannel.SendKeepsInboundAndValues | cores/blinklib/blinklib_ir.cpp:228-279 | SendFaceData keeps every face's values, datagram lengths and sequence numbers |
| FaceChannel.SendUpToPrefix | cores/blinklib/blinklib_ir.cpp:232-277 | answers for faces not yet visited do not affect faces already sent on |
| FaceChannel.Channel.constructor | cores/blinklib/blinklib_ir.cpp:75-77 | fresh tables: every face zeroed, every didValueOnFaceChange shadow 0, the postpone lockout deadline 0 |
| FaceChannel.Channel.MaybeEnableSendPostponeWarmSleep | cores/blinklib/blinklib_ir.cpp:97-106 | the state becomes MaybeEnable's |
| FaceChannel.Channel.AcknowledgeOn | cores/blinklib/blinklib_ir.cpp:186-207 | the field updates compute Acknowledge |
| FaceChannel.Channel.HandlePacket | cores/blinklib/blinklib_ir.cpp:143-215 | the state becomes Handle's; the pixel buffer is as before |
| FaceChannel.Channel.ReceiveFaceData | cores/blinklib/blinklib_ir.cpp:132-226 | the state becomes ReceiveUpTo's over all six faces |
| FaceChannel.Channel.SendFaceData | cores/blinklib/blinklib_ir.cpp:228-279 | faces and send log become SendUpTo's over all six faces; nothing else in the BIOS changes |
| FaceChannel.Channel.GetDatagramLengthOnFace | cores/blinklib/blinklib_ir.cpp:290-292 | the inbound length |
| FaceChannel.Channel.IsDatagramReadyOnFace | cores/blinklib/blinklib_ir.cpp:294-296 | ready iff the inbound length is non-zero |
| FaceChannel.Channel.IsDatagramPendingOnFace | cores/blinklib/blinklib_ir.cpp:298-300 | pending iff the outbound length is non-zero |
| FaceChannel.Channel.GetDatagramOnFace | cores/blinklib/blinklib_ir.cpp:302-304 | the whole inbound slot, whose first length bytes are the datagram; the length is not reset |
| FaceChannel.Channel.MarkDatagramReadOnFace | cores/blinklib/blinklib_ir.cpp:306 | zeroes that face's inbound length only |
| FaceChannel.Channel.SendDatagramOnFace | cores/blinklib/blinklib_ir.cpp:308-323 | succeeds iff len ≤ 16 and the outbound slot is empty; on failure nothing changes; on success the sequence advances, the payload is copied and no other face is touched |
| FaceChannel.Channel.GetLastValueReceivedOnFace | cores/blinklib/blinklib_ir.cpp:325 | the face's inValue |
| FaceChannel.Channel.DidValueOnFaceChange | cores/blinklib/blinklib_ir.cpp:327-339 | true iff inValue differs from the face's shadow, which then equals inValue; other shadows are kept |
| FaceChannel.Channel.IsValueReceivedOnFaceExpired | cores/blinklib/blinklib_ir.cpp:341-343 | iff the face's expiry timer has expired |
| FaceChannel.Channel.IsAlone | cores/blinklib/blinklib_ir.cpp:345-352 | iff all six faces have expired |
| FaceChannel.Channel.SetValueSentOnAllFaces | cores/blinklib/blinklib_ir.cpp:354-356 | every face's outValue is set, nothing else |
| FaceChannel.Channel.SetValueSentOnFace | cores/blinklib/blinklib_ir.cpp:358-360 | only that face's outValue changes |
| FaceValueOnly.ZeroedFaceAlone | cores/blinklib/blinklib_ir_face_value_only.cpp:40-58 | a zero-filled face reads inValue 0, is expired exactly when the clock is past 0, and is due to send at once |
| FaceValueOnly.AllPostponing | cores/blinklib/blinklib_ir_face_value_only.cpp:84 | every face gets postpone_sleep set and nothing else changes |
| FaceValueOnly.AnyPacketRefreshes | cores/blinklib/blinklib_ir_face_value_only.cpp:99-122 | any ready packet sets expiry to now + 200; only user data sets sendTime = 0 and inValue |
| FaceValueOnly.RequestFromHeader | cores/blinklib/blinklib_ir_face_value_only.cpp:124-149 | a postpone request iff the header is non-special with postpone_sleep; sleep iff both bytes are the trigger value |
| FaceValueOnly.PingPong | cores/blinklib/blinklib_ir_face_value_only.cpp:119 | after a user packet the face is due at any clock value |
| FaceValueOnly.SendShape | cores/blinklib/blinklib_ir_face_value_only.cpp:170-208 | due iff sendTime ≤ now; sends [outValue] or [outValue, header]; postpone_sleep is cleared only on success; next send at current + 150 |
| FaceValueOnly.SendReceiveRoundTrip | cores/blinklib/blinklib_ir_face_value_only.cpp:109-142 | the receiving tile gets the value and the postpone request exactly when raised |
| FaceValueOnly.MaybeEnableIdempotent | cores/blinklib/blinklib_ir_face_value_only.cpp:80-89 | an immediate second call changes nothing |
| FaceValueOnly.ReceiveConsumesAll | cores/blinklib/blinklib_ir_face_value_only.cpp:96-160 | every face's ready flag is cleared, whether or not a packet was there |
| FaceValueOnly.SendUpToPrefix | cores/blinklib/blinklib_ir_face_value_only.cpp:167-210 | answers for faces not yet visited do not affect faces already sent on |
| FaceValueOnly.Channel.constructor | cores/blinklib/blinklib_ir_face_value_only.cpp:71-73 | fresh tables: every face zeroed, every didValueOnFaceChange shadow 0, the postpone lockout deadline 0 |
| FaceValueOnly.Channel.MaybeEnableSendPostponeWarmSleep | cores/blinklib/blinklib_ir_face_value_only.cpp:80-89 | the state becomes MaybeEnable's |
| FaceValueOnly.Channel.HandlePacket | cores/blinklib/blinklib_ir_face_value_only.cpp:99-151 | the state becomes Handle's |
| FaceValueOnly.Channel.ReceiveFaceData | cores/blinklib/blinklib_ir_face_value_only.cpp:91-161 | the state becomes ReceiveUpTo's over all six faces |
| FaceValueOnly.Channel.SendFaceData | cores/blinklib/blinklib_ir_face_value_only.cpp:163-211 | faces and send log become SendUpTo's |
| FaceValueOnly.Channel.GetDatagramLengthOnFace | cores/blinklib/blinklib_ir_face_value_only.cpp:222-226 | always 0 |
| FaceValueOnly.Channel.IsDatagramReadyOnFace | cores/blinklib/blinklib_ir_face_value_only.cpp:228-230 | never ready |
| FaceValueOnly.Channel.IsDatagramPendingOnFace | cores/blinklib/blinklib_ir_face_value_only.cpp:232-236 | never pending |
| FaceValueOnly.Channel.GetDatagramOnFace | cores/blinklib/blinklib_ir_face_value_only.cpp:238-242 | always the null pointer |
| FaceValueOnly.Channel.MarkDatagramReadOnFace | cores/blinklib/blinklib_ir_face_value_only.cpp:244 | nothing changes |
| FaceValueOnly.Channel.SendDatagramOnFace | cores/blinklib/blinklib_ir_face_value_only.cpp:246-252 | always false |
| FaceValueOnly.Channel.GetLastValueReceivedOnFace | cores/blinklib/blinklib_ir_face_value_only.cpp:254 | the face's inValue |
| FaceValueOnly.Channel.DidValueOnFaceChange | cores/blinklib/blinklib_ir_face_value_only.cpp:256-268 | true iff inValue differs from the shadow, which then equals inValue |
| FaceValueOnly.Channel.IsValueReceivedOnFaceExpired | cores/blinklib/blinklib_ir_face_value_only.cpp:270-272 | iff expireTime < now |
| FaceValueOnly.Channel.IsAlone | cores/blinklib/blinklib_ir_face_value_only.cpp:274-281 | iff all six faces have expired |
| FaceValueOnly.Channel.SetValueSentOnAllFaces | cores/blinklib/blinklib_ir_face_value_only.cpp:283-285 | every face's outValue is set, nothing else |
| FaceValueOnly.Channel.SetValueSentOnFace | cores/blinklib/blinklib_ir_face_value_only.cpp:287-289 | only that face's outValue changes |
| Blinklib.Grab | cores/blinklib/blinklib.cpp:63-67 | the grabbed flag is clear afterwards, and the answer is true iff the flags changed |
| Blinklib.GrabClearsOnlyThatFlag | cores/blinklib/blinklib.cpp:63-67 | returns whether the bit was set and clears only that bit; a second grab returns false |
| Blinklib.Buttons.constructor | cores/blinklib/blinklib.cpp:54-58 | the three zero-filled snapshots start at 0 |
| Blinklib.Buttons.ButtonDown | cores/blinklib/blinklib.cpp:61 | iff the down snapshot is non-zero |
| Blinklib.Buttons.ButtonClickCount | cores/blinklib/blinklib.cpp:89 | the click count snapshot |
| Blinklib.Buttons.GrabAndClear | cores/blinklib/blinklib.cpp:63-67 | grab-and-clear on the flag snapshot; the other snapshots are kept |
| Blinklib.Buttons.ButtonPressed | cores/blinklib/blinklib.cpp:69 | grab-and-clear of PRESSED |
| Blinklib.Buttons.ButtonReleased | cores/blinklib/blinklib.cpp:71-73 | grab-and-clear of RELEASED |
| Blinklib.Buttons.ButtonSingleClicked | cores/blinklib/blinklib.cpp:75-77 | grab-and-clear of SINGLECLICKED |
| Blinklib.Buttons.ButtonDoubleClicked | cores/blinklib/blinklib.cpp:79-81 | grab-and-clear of DOUBLECLICKED |
| Blinklib.Buttons.ButtonMultiClicked | cores/blinklib/blinklib.cpp:83-85 | grab-and-clear of MULITCLICKED |
| Blinklib.Buttons.ButtonLongPressed | cores/blinklib/blinklib.cpp:92-94 | grab-and-clear of LONGPRESSED |
| Blinklib.Buttons.ButtonLongLongPressed | cores/blinklib/blinklib.cpp:100-102 | grab-and-clear of 3SECPRESSED |
| Blinklib.XorShift | cores/blinklib/blinklib.cpp:150-158 | a xorshift 13/17/5 step maps non-zero states to non-zero states and 0 to 0 |
| Blinklib.Rng.constructor | cores/blinklib/blinklib.cpp:116 | the state starts at Marsaglia's seed 2463534242 |
| Blinklib.Rng.NextRand32 | cores/blinklib/blinklib.cpp:150-158 | the state advances by one xorshift step and is returned; non-zero stays non-zero |
| Blinklib.Rng.RandomWord | cores/blinklib/blinklib.cpp:162-166 | the low 16 bits of the next state |
| Blinklib.RandomDivisorAsWritten | cores/blinklib/blinklib.cpp:172 | the divisor is undefined (division by zero) iff limit == 65535, and at least 1 otherwise |
| Blinklib.RandomFullRangeDividesByZero | cores/blinklib/blinklib.cpp:172 | random(65535) divides by zero; every smaller limit has a divisor |
| Blinklib.Rng.Random | cores/blinklib/blinklib.cpp:171-180 | the answer and the new state are RandomSpec's of the old state: the do-while loop's draws, each the low 16 bits of the next state divided by 65535 / (limit + 1) |
| Blinklib.RetryTrace | cores/blinklib/blinklib.cpp:175-177 | the loop stops at the first draw within limit, every earlier draw exceeded it, and the state is the one that draw left; without an answer every allowed draw was made |
| Blinklib.RandomAnswer | cores/blinklib/blinklib.cpp:171-180 | random(limit) answers the first of its draws that is ≤ limit, leaving the state after it; it answers nothing only when all attempts + 1 draws exceed limit, leaving the state after the last |
| Blinklib.RandomFullRange | cores/blinklib/blinklib.cpp:171-180 | at limit 65535 the answer is the low 16 bits of the next state, after exactly one step |
| Blinklib.MapAsWritten | cores/blinklib/blinklib.cpp:215-247 | division by zero iff x is in range and either in_min == in_max, or the input range is 0..65535 and the output span is below 65535 |
| Blinklib.Map | cores/blinklib/blinklib.cpp:215-247 | x < in_min gives out_min, x > in_max gives out_max; in range with out_min ≤ out_max stays in [out_min, out_max], sends in_min to out_min and in_max to out_max |
| Blinklib.MapAgreesWhereDefined | cores/blinklib/blinklib.cpp:226-245 | wherever map as written has a non-zero divisor, Map gives its answer |
| Blinklib.MapDividesByZero | cores/blinklib/blinklib.cpp:232-243 | map(0,0,65535,0,100) and map(5,5,5,0,10) divide by zero |
| Blinklib.MapMonotone | cores/blinklib/blinklib.cpp:226-245 | in range, a larger input never gives a smaller output |
| Blinklib.QuarterWave | cores/blinklib/blinklib.cpp:323-341 | the table interpolation of the quarter wave lies in 0..127 |
| Blinklib.Sin8 | cores/blinklib/blinklib.cpp:322-349 | never 0: the int8_t result plus 128 stays in 1..255 |
| Blinklib.Sin8Shape | cores/blinklib/blinklib.cpp:322-349 | 128 + y in the first half turn, 128 - y in the second, with the table's quarter wave y in 0..127, so never 0 |
| Blinklib.Sin8Landmarks | cores/blinklib/blinklib.cpp:312-349 | sin8(0) = 128, sin8(64) = 255, sin8(128) = 128, sin8(192) = 1 |
| Blinklib.Sin8HalfTurn | cores/blinklib/blinklib.cpp:343-346 | inputs differing only in bit 7 give outputs summing to 256 (0 mod 256) |
| Blinklib.HasWoken | cores/blinklib/blinklib.cpp:276-291 | true iff the warm-woken flag is set or wokeFlag == 0; afterwards neither is signalled, so a second call returns false |
| Blinklib.StartState | cores/blinklib/blinklib.cpp:295-306 | download success and we-are-root map to their blinklib values, anything else to START_STATE_POWER_UP |
| BlinkSketch.CircularMax | AS7/blink/Sketches/Blink/main.cpp:67-103 | the answer is a or b; for distinct a, b ≤ count it is the larger iff j - i < i + (count - j), otherwise the smaller |
| BlinkSketch.CircularMaxSymmetric | AS7/blink/Sketches/Blink/main.cpp:71-81 | swapping a and b does not change the answer |
| BlinkSketch.CircularMaxTieGoesToSmaller | AS7/blink/Sketches/Blink/main.cpp:95-101 | on equal distances the smaller index wins in either argument order, e.g. circularMax(1, 3, 4) == 1 |
| BlinkSketch.Click | AS7/blink/Sketches/Blink/main.cpp:115-121 | without a click nothing changes; a click clears every error mark |
| BlinkSketch.ClickCycles | AS7/blink/Sketches/Blink/main.cpp:116-119 | a click moves myState to (myState + 1) mod 5 |
| BlinkSketch.ObserveOutOfRange | AS7/blink/Sketches/Blink/main.cpp:124-131 | a neighbour value ≥ 5 marks the face and keeps myState; an in-range one marks nothing; an expired face does nothing |
| BlinkSketch.ObserveKeepsStateInRange | AS7/blink/Sketches/Blink/main.cpp:123-133 | the face loop keeps myState < 5 |
| BlinkSketch.ObserveMarksErrors | AS7/blink/Sketches/Blink/main.cpp:123-133 | after the face loop a face is marked iff it was before or its neighbour sent a value ≥ 5 |
| BlinkSketch.LoopKeepsStateInRange | AS7/blink/Sketches/Blink/main.cpp:113-133 | loop preserves myState < myState_count, so colors[myState] is in bounds |
| BlinkSketch.Sketch.constructor | AS7/blink/Sketches/Blink/main.cpp:5-9 | myState 0 and no error marks |
| BlinkSketch.Sketch.ClearErrors | AS7/blink/Sketches/Blink/main.cpp:11-15 | all six error marks are false |
| BlinkSketch.Sketch.Setup | AS7/blink/Sketches/Blink/main.cpp:17-20 | the marks are cleared and myState is kept |
| BlinkSketch.Sketch.Loop | AS7/blink/Sketches/Blink/main.cpp:113-152 | the globals become LoopStep's, myState stays valid, and the value sent on all faces is myState |

## Left out

- Interrupt plumbing is not modelled: `cli()`/`sei()`, `DO_ATOMICALLY`, `volatile`. Each tick and each call is one atomic step.
- Physical IR timing is not modelled: `ir_tx_pulses`, `_delay_us` and the microsecond constants. A transmitted symbol is an idealised run of samples, with the two empty samples after each symbol.
- The sync run is assumed to arrive whole. With four pulses the receiver sees at least three, as `irBitmaskSendData` intends.
- IrData.Transceiver.GetData: the busy wait at `irdata.cpp:314` becomes a precondition that a value is waiting.
- The BlinkBIOS headers are not part of this model. These constants keep their names but no values: `IR_USER_DATA_HEADER_BYTE`, the `BUTTON_BITFLAG_*` masks, `ERRORBIT_*`, `BLINKBIOS_START_STATE_*` and `PIXEL_COUNT`. `IR_RX_PACKET_SIZE` is assumed to lie between 16 and 19, so a received datagram fits the 16-byte slot.
- A ready packet is assumed to be at least one byte long. With length 0 the source's `packetBufferLen - 1` would wrap to 255.
- The BIOS's own behaviour is a parameter. Whether a send is accepted is an out-parameter. What the environment does during the warm-sleep wait is a script of steps whose last step is a hardware wake; that is what makes the wait terminate.
- Time spent sending the floods is not modelled. The clock only moves in the environment's steps.
- Colours are not modelled. `SetColorNow` and the 5-bit `Color` fields are logged as the brightness counter alone.
- `compute_checksum` and the `BGA_CUSTOM_BLINKLIB_ENABLE_CHECKSUM` branch are not modelled; the default build has no checksum.
- `isDatagramPendingOnAnyFace` and `resetPendingDatagramOnFace` are declared in `blinklib_ir.h` but have no definition in the source, so they are not modelled.
- `run()` is left out as scheduling glue over hardware. So are `randomize()` (watchdog entropy), `getSerialNumberByte`, `getBlinkbiosVersion`, the stack watcher and the time block reads.
- Blinklib.Rng.Random: the rejection loop runs at most `attempts` extra draws and answers None when they run out (Blinklib.RandomAnswer says exactly when). Termination of the source's loop depends on the generator's sequence, which is not proved.
- Blinklib.XorShift: only preservation of a non-zero state is proved, not that the xorshift step is a bijection.
- The sketch's floating-point and `long` code is left out: `sin_d`, `throbbing`, `map_m`, `dim`, `setColor` and `setFaceColor`. The blinklib calls `loop` makes are passed in as their answers.
- The datagram build resets `sendTime` with `Timer::set(0)`, so sendTime becomes `now`. The value-only build writes a raw 0. Both are modelled as written.
- `getDatagramOnFace` does not reset the length, although the comment at `cores/blinklib/blinklib_ir.h:68-73` says it does. Conversely, `markDatagramReadOnFace` does reset it, although the comment calls it a no-op. The model follows the code.
- The comment at `AS7/blink/Sketches/Blink/main.cpp:99` says "b wins" in ambiguous cases. In the code the smaller index wins, whichever argument it is passed as (BlinkSketch.CircularMaxTieGoesToSmaller).
- The comments in `irBroadcastData` (`libraries/blinklib/src/irdata.cpp:401` and `:421`) say the first send goes to the faces without a receive in progress. The mask the code builds (lines 411-413) selects the faces with one, so those are sent to first. The model follows the code (IrData.Transceiver.BroadcastData).
- Warm sleep sends its floods through `blinklib::ir::internal::Send` (`cores/blinklib/blinklib_warm_sleep.cpp:87` and `:193`), which is defined only in `blinklib_ir.cpp`. That whole file is compiled out under `BGA_CUSTOM_BLINKLIB_DISABLE_DATAGRAM` (`cores/blinklib/blinklib_ir.cpp:1`), so in the value-only build none of the files modelled defines it. The model sends the flood packets with Bios.Bios.SendPacket directly, in both builds.
- The wake fade decrements from 0 before its first colour, so it shows 255 down to 226 rather than brightening from dark. The model follows the code (WarmSleep.WakeAnimationShape).

## Findings

| source | as written | input that shows it | evidently intended | confidence | as-written member | corrected member |
|---|---|---|---|---|---|---|
| cores/blinklib/blinklib.cpp:172 | `GETNEXTRANDUINT_MAX / (limit + 1)` with 16-bit `limit + 1` | `random(65535)`: `limit + 1` wraps to 0 | a number in 0..65535, i.e. the draw itself | not executed | Blinklib.RandomFullRangeDividesByZero | Blinklib.Rng.Random |
| cores/blinklib/blinklib.cpp:232-233 | divides by `in_max - in_min + 1` in 16 bits | `map(0, 0, 65535, 0, 100)`: the divisor wraps to 0 | scale by the 65536-step input range | not executed | Blinklib.MapDividesByZero | Blinklib.Map |
| cores/blinklib/blinklib.cpp:242-243 | divides by `in_max - in_min` | `map(5, 5, 5, 0, 10)`: the divisor is 0 | a one-point input range maps to `out_min` | not executed | Blinklib.MapDividesByZero | Blinklib.Map |
