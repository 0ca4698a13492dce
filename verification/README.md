# STM8S103F3 iBUS serial link, modelled in Dafny

This project models the firmware core of an STM8S103F3 receiver-side controller.
One UART carries two FlySky iBUS protocols:

- In full duplex it listens for servo frames: a `0x20 0x40` sync marker, 14
  little-endian 16-bit channel fields and a checksum.
- After every valid servo frame it calls the linked application's `update()`,
  switches to half duplex and arms a one-shot timer. While the timer runs it
  answers iBUS sensor requests (Probe, Type, Value) on the same wire.
- The timer's expiry returns the link to full duplex.

The sensor values come from a 64-slot oversampling ring buffer per sensor.
The two application builds (LESU and Volvo) supply the control law `update()`
and the ADC conversion `sensor()`.

The model is functional:

- an immutable state record `Serial.Link` holds every static the three
  interrupt handlers share;
- each interrupt is a pure step function (`RxByte`, `TxReady`, `Expire`);
- `Serial.Step`, `Serial.Run` and `Serial.Wire` run a sequence of hardware
  events and collect the bytes put on the wire.

Integer widths follow the SDCC compiler the firmware is built with. `int` is
16 bits wide, and every truncation is written out with `U8`, `U16`, `U32` and
`I16`.

Modules, one per source unit or concern:

- `Bytes`: machine integer types, wrap-around, little-endian words.
- `Checksum`: the iBUS checksum rule and the decoders' running accumulator.
- `Control`: the helpers lesu.c and volvo.c share (`ramp`, the switch reader,
  `output1`, the Q10 conversion).
- `Lesu` and `Volvo`: the two application builds.
- `Build`: whichever of the two is linked.
- `Sensor`: src/sensor.c.
- `SensorHistory`: what `sensordata` reports, stated against the history of
  captured readings.
- `Serial`: src/serial.c.
- `Trace`: running event sequences.
- `ServoFrames`: whole servo frames, and an encoder whose frames the decoder
  always accepts.
- `SensorExchange`: whole request/response exchanges.

Behaviours of the code worth knowing before reading the contracts:

- The channel fields are stored as they arrive (src/serial.c:160), before the
  checksum is checked. A frame with a bad checksum suppresses `update()` and
  the switch to half duplex, but leaves its fields in `chv`.
- The averaging divisor is the filled count after the new reading is counted
  (src/sensor.c:46-48). The sum does not include that reading, so during
  warm-up the k-th call reports the sum of k-1 readings divided by k. The
  first call therefore reports `sensor(i, 0)`.
- A rejected sensor request leaves `m == 4` (src/serial.c:98-100). Every
  further byte is then ignored until the timeout returns the link to full
  duplex.
- A Value request captures a reading even when no response follows
  (src/serial.c:120-129). With the two registered type codes (width 2),
  `send4` and the "other width" branch are unreachable.

## Model

| member | source | states |
|---|---|---|
| Bytes.BytesOfWord | src/serial.c:148 | `a \| b << 8` splits back into `a` and `b`: low and high byte of a word are recovered |
| Bytes.BytesOfU32 | src/serial.c:68 | the four bytes `x, x >> 8, x >> 16, x >> 24` that `send4` extracts recompose to `x` |
| Checksum.Seal | src/serial.c:54-80 | the trailing word `0xFFFF - sum` seals a body, and it is the only word that does |
| Checksum.SealedBy | src/serial.c:56 | a word seals a body exactly when it equals `0xFFFF - sum` modulo 2^16 |
| Checksum.AccumulatorMatch | src/serial.c:100 | comparing the running accumulator with the received word is exactly the iBUS sealing rule |
| Checksum.AccumulatorStep | src/serial.c:162 | `u -= a + b` keeps `u == 0xFFFF - sum` modulo 2^16 |
| Serial.Init | src/serial.c:23-34 | the state after `initserial`: consistent, full duplex, timer stopped, receiving; the servo decoder idle (`n == 30`, src/serial.c:93) and no request in progress; channels, sampler (src/sensor.c:35-36) and application statics zeroed; `update()` not yet called |
| Serial.Queue | src/serial.c:108-113 | a queued response fills the front of `tx` and rewinds the send cursor to 0 with `txq` its length, keeping the link receiving; nothing else changes |
| Serial.Transmit | src/serial.c:136 | `UART_CR2 = 0x88` switches to transmitting and changes nothing else |
| Serial.Frame2 | src/serial.c:54-65 | `send2` frame: length 6, echoes the command, carries the value little-endian, and is sealed |
| Serial.Frame4 | src/serial.c:67-80 | `send4` frame: length 8, echoes the command, carries the 32-bit value little-endian, and is sealed |
| Serial.ValueFrame | src/serial.c:121-130 | width 2 selects `send2`, width 4 selects `send4`, any other width gives no frame |
| Serial.Respond | src/serial.c:103-136 | dispatch of a valid request: unregistered index or unknown kind leaves the link unchanged; Probe echoes the request, Type sends the type code, Value sends the converted average and updates only the registry; a response touches only the transmitter and the registry, so both decoders keep their state |
| Serial.SensorRx | src/serial.c:97-140 | half-duplex decoding: `m == 4` ignores bytes; the first pair is latched into `(c, d)` and subtracted; the second pair dispatches only when `c == 4` and the checksum matches, otherwise leaves `m == 4` |
| Serial.Accept | src/serial.c:150-158 | an accepted frame calls `update()` once on the stored channels, resets `m` and `u`, enters half duplex and arms the timer |
| Serial.ServoRx | src/serial.c:141-162 | full-duplex decoding: the sync marker restarts the frame anywhere; after 30 bytes bytes are ignored; each pair stores a 12-bit field and updates the accumulator; the checksum pair decides acceptance |
| Serial.RxByte | src/serial.c:92-163 | every byte shifts `(a, b)`; half duplex never calls `update()` or touches `chv`; full duplex never touches the registry and records an `update()` call exactly when it enters half duplex |
| Serial.TxReady | src/serial.c:82-90 | in the completion phase restore reception and send nothing; otherwise send `tx[txp]`, advance `txp`, and after the last byte wait for completion |
| Serial.Expire | src/serial.c:165-168 | the timeout clears half duplex and stops the one-shot timer, changing nothing else |
| Serial.Step | src/serial.c:82-168 | a handler runs only when its interrupt is enabled; only the TX handler sends, at most one byte; no handler changes the linked application |
| Serial.Run | src/serial.c:82-168 | any sequence of interrupts keeps the link consistent and the linked application fixed |
| Serial.Wire | src/serial.c:87 | a sequence of interrupts puts at most one byte per interrupt on the wire |
| Sensor.SensorType | src/sensor.c:26-30 | index 0 is `0x201`, index 1 is `0x203`, every other index is 0, and each registered type has width 2 |
| Sensor.Capture | src/sensor.c:38-48 | the divisor is never zero, grows by one up to 64 and then stays; exactly slot `p & 63` changes; the average is over the slots as they were before the new reading |
| Sensor.DivBound | src/sensor.c:49 | dividing the 16-bit sum by the filled count cannot exceed the sum, so the average fits `s / n` |
| Sensor.SumSlots | src/sensor.c:38-40 | the summation loop computes the 16-bit truncated sum of the 64 slots |
| Sensor.U16Add | src/sensor.c:40 | accumulating in uint16 truncates the same as truncating the full sum |
| Sensor.SensorData | src/sensor.c:32-51 | nothing for an index above 1; otherwise one capture on that sensor's channel, converted by the application, and no other channel changes |
| SensorHistory.CaptureHolds | src/sensor.c:38-48 | one capture keeps the ring buffer equal to the last 64 readings of the history (unused slots zero, sums agree) and reports the 16-bit window sum divided by `min(k, 64)` |
| SensorHistory.CaptureSum | src/sensor.c:40-46 | the buffer's sum follows the window's sum across a capture |
| SensorHistory.SlotsAfterWrite | src/sensor.c:46 | writing at slot `p & 63` keeps every reading of the window at its slot |
| SensorHistory.LeavingSlot | src/sensor.c:46 | the slot overwritten holds the reading that leaves the window, or zero during warm-up |
| SensorHistory.EmptyHolds | src/sensor.c:35-36 | the statically zeroed buffer holds the empty history |
| SensorHistory.ReplayHolds | src/sensor.c:32-51 | after any sequence of captures the channel holds that history |
| SensorHistory.ReportedAverage | src/sensor.c:38-49 | the k-th call reports the 16-bit sum of the (at most 64) previous readings divided by `min(k, 64)`: the new reading is never included |
| SensorHistory.FirstReport | src/sensor.c:47-49 | the first call reports an average of 0 |
| SensorHistory.FirstTemperature | src/sensor.c:49 | so the temperature sensor's first Value reply wraps below zero and carries `0xFF9C` in either build |
| SensorHistory.TenBitSum | src/sensor.c:23 | readings of the right-aligned 10-bit ADC sum to at most 1023 per reading, so a 64-slot sum stays below 2^16 and the uint16 accumulator never wraps |
| SensorHistory.SteadyMean | src/sensor.c:38-49 | once more than 64 readings were captured, with 10-bit readings, each call reports the exact floor mean of the 64 readings before the current one |
| SensorHistory.WindowStep | src/sensor.c:46 | extending the history by one reading changes the window sum by the new reading minus the one that leaves |
| Control.Dist | src/lesu.c:36 | the distance from neutral: `t` is `1500 + d` or `1500 - d` |
| Control.Switch3 | src/lesu.c:44-48 | 0 exactly below 1450, 2 exactly above 1550, 1 exactly in between |
| Control.Pump | src/lesu.c:50-54 | the pump flag is set exactly for non-zero demand; zero demand gives 1500; for `-1560 <= t < 0x8000 - 60` (no int16 wrap of `t + 60`, no uint16 wrap of `1500 + t`), `min(1500 + 60 + t, 1500 + PUMP_MAX)`; for non-negative demand within `[1500, 1500 + PUMP_MAX]` |
| Control.Ramp | src/lesu.c:63-75 | zero previous output or zero step passes the target; the result stays on the target's side of 1500 and never overshoots; closed forms `max(t, min(u - x, 1450))` and `min(t, max(u + x, 1550))` in uint16 |
| Control.Scale | src/lesu.c:145-147 | `(v * volt) >> 10` is the floor of `v * volt / 1024`, computed without uint32 overflow |
| Control.Convert | src/lesu.c:142-150 | index 1 is the Q10 product; index 0 the Q10 product minus 100, and below 100 exactly `2^32 + product - 100` (uint32 wrap-around); any other index 0 |
| Lesu.Input1 | src/lesu.c:35-38 | closed below distance 84 from neutral, otherwise `50 * (d - 80) / 200`, bounded, in 16-bit arithmetic |
| Lesu.Input1Symmetric | src/lesu.c:35-38 | the valve opening is symmetric about 1500 |
| Lesu.Input2 | src/lesu.c:40-42 | the signed offset `t - 1500` |
| Lesu.Output2 | src/lesu.c:56-61 | neutral exactly inside the dead band `(-50, 50)`, otherwise `1500 + t` clamped to `[1000, 2000]` |
| Lesu.Blink | src/lesu.c:103-110 | the forced-blink switch overrides; reversing hard or steering straight gives 0; a hard left or right turn while not reversing selects turn signal 1 or 2, and only then is a new turn signal chosen; otherwise the mode is kept |
| Lesu.Update | src/lesu.c:81-131 | both drives mix throttle and steering through `output2` and `ramp` and stay in `[1000, 2000]`; the pump is `ramp(output1(i1 + i2 + i5), u3, 20)`, runs forward only and exactly while some valve is open; the blink mode is chosen from `bm`, switch 7, throttle and steering; the indicator pins follow the switch and the throttle |
| Lesu.Sensor | src/lesu.c:142-150 | TMP36 temperature `((v * 3325) >> 10) - 100` for index 0, wrapping in uint32 below 0 degrees; divided voltage `(v * 3657) >> 10` for index 1; 0 otherwise |
| Volvo.Level | src/volvo.c:38-41 | closed below 220, `(d - 220) / 2` up to 280, `d - 250` from 280 up to distance 905 (beyond, `100 * (d - 250)` wraps in 16 bits) |
| Volvo.Input1 | src/volvo.c:36-42 | the trimmed pass-through `t + x` is written in every case, independently of the dead band |
| Volvo.LevelMonotone | src/volvo.c:39-41 | up to distance 905 from neutral the opening never decreases away from neutral; the last two pieces meet at 280 (past 905 the 16-bit product wraps and the opening drops) |
| Volvo.Demand | src/volvo.c:77-82 | the pump demand is the sum of the three openings, zero exactly when all three valves are closed |
| Volvo.Update | src/volvo.c:74-94 | the valves get the trimmed channels, the pump gets `ramp(output1(i1 + i2 + i3), u4, 20)` within `[1500, 1840]`, running exactly while there is demand |
| Volvo.Sensor | src/volvo.c:105-113 | TMP36 temperature `((v * 3329) >> 10) - 100` for index 0, wrapping in uint32 below 0 degrees; divided voltage `(v * 3662) >> 10` for index 1; 0 otherwise |
| Build.Boot | src/lesu.c:77-79 | the linked application before its first `update()` has its statics zeroed |
| Build.Update | src/serial.c:151 | `update()` runs the linked application's control law on the channel frame |
| Build.Replay | src/serial.c:151 | the application's state after the recorded `update()` calls, keeping the linked build |
| Build.ReplaySnoc | src/serial.c:151 | one more call runs the control law once more on the new frame |
| Build.Sensor | src/sensor.c:49 | `sensor(i, v)` of the linked application |
| Build.SensorIgnoresState | src/sensor.c:49 | the conversion depends only on which application is linked, not on its control state |
| Trace.RunAppend | src/serial.c:82-168 | running two event sequences back to back is running their concatenation |
| Trace.RunAlike | src/serial.c:82-168 | two runs that reach the same state stay equal after one more event |
| Trace.RxSilent | src/serial.c:92-163 | receiving bytes never puts anything on the wire |
| Trace.SendByte | src/serial.c:87-89 | one TX-empty interrupt while transmitting sends `tx[txp]` and advances the cursor |
| Trace.DrainState | src/serial.c:82-90 | Ready events while transmitting advance the cursor one byte each, and after the last byte wait for completion |
| Trace.Drain | src/serial.c:87 | the bytes sent are `tx[txp..]` in order, one per event |
| Trace.Quiet | src/serial.c:136 | while receiving, TX-ready events do nothing |
| Trace.Complete | src/serial.c:83-85 | the completion interrupt restores reception and sends nothing |
| Trace.Transmission | src/serial.c:82-90 | a queued frame of `n` bytes goes out whole in `n` Ready events, and one more re-enables the receiver |
| Trace.Transmitted | src/serial.c:82-90 | the same for the state and bytes of the TX interrupts alone: the whole frame, then the receiver back on |
| Trace.Sent | src/serial.c:87-89 | after `n` TX-empty interrupts all `n` bytes of the frame are on the wire, in order, and the link waits for completion |
| Trace.Silence | src/serial.c:136 | a receiving link ignores any number of Ready events and sends nothing |
| Trace.TimeoutIdempotent | src/serial.c:165-168 | the timeout only leaves full duplex behind, and a second timeout changes nothing |
| ServoFrames.CountByte | src/serial.c:147 | in full duplex, a byte that completes no sync and no pair is only counted |
| ServoFrames.StoreByte | src/serial.c:147-162 | a byte completing a field pair stores `(lo \| hi << 8) & 0x0FFF` in its slot and subtracts the pair from the accumulator |
| ServoFrames.ServoHeader | src/serial.c:142-146 | the sync marker sets `n = 0` and `u = 0xFF9F` |
| ServoFrames.ServoPrefix | src/serial.c:141-162 | after the header and `j` fields the decoder holds the first `j` fields and the accumulator of the bytes so far |
| ServoFrames.LastByte | src/serial.c:149-158 | the final byte accepts the frame exactly when its checksum seals it |
| ServoFrames.ServoFrame | src/serial.c:141-162 | a whole frame stores every field even when the checksum fails, and is accepted (one `update()` on the new fields, half duplex, timer armed) exactly when sealed |
| ServoFrames.IdleIgnores | src/serial.c:142-147 | bytes without a sync marker leave an idle decoder idle |
| ServoFrames.EncodeServo | src/serial.c:141-162 | the frame a transmitter sends for 12-bit channel values is 32 bytes long and sealed |
| ServoFrames.EncodedHasNoInnerSync | src/serial.c:142-146 | with 12-bit fields no sync marker can appear inside an encoded frame |
| ServoFrames.StoredEncoded | src/serial.c:160 | the 12-bit mask stores exactly the encoded channel values |
| ServoFrames.ServoRoundTrip | src/serial.c:141-162 | an encoded frame received by an idle decoder delivers exactly its channel values to one `update()` call and enters half duplex |
| ServoFrames.FirstFrame | src/serial.c:23-34 | after power-up the first encoded frame is accepted and runs `update()` once, on the zeroed application, with exactly its channel values |
| SensorExchange.ServoThenListening | src/serial.c:150-158 | an accepted servo frame leaves the link listening for a request with a fresh accumulator |
| SensorExchange.Recover | src/serial.c:165-168 | the timeout returns a receiving link to full duplex, with the servo decoder waiting for the next sync |
| SensorExchange.CountRequestByte | src/serial.c:98 | the first and third byte of a request are only counted |
| SensorExchange.LatchPair | src/serial.c:139-140 | the second byte latches length and command into `(c, d)` and subtracts them from the accumulator |
| SensorExchange.CheckPair | src/serial.c:99-102 | the fourth byte dispatches exactly when the length is 4 and the checksum matches; otherwise the link goes deaf |
| SensorExchange.RequestChecksum | src/serial.c:100 | the accumulator matches the received word exactly when the request is sealed |
| SensorExchange.Request | src/serial.c:97-140 | a whole request is dispatched exactly when it has length 4 and is sealed, and otherwise leaves the link deaf with `m == 4` |
| SensorExchange.Deaf | src/serial.c:98 | a deaf link ignores every byte, only shifting it through `(a, b)` |
| SensorExchange.Response | src/serial.c:101-135 | every response is a well-formed iBUS frame: its first byte is its length, it echoes the command, and it is sealed |
| SensorExchange.ResponseOwed | src/serial.c:100-135 | a response is owed exactly for a sealed length-4 request addressing a registered sensor with a known command kind |
| SensorExchange.Queued | src/serial.c:103-136 | dispatching a request queues exactly the response owed to it, or stays receiving when none is owed |
| SensorExchange.QueuedNothing | src/serial.c:105 | an unregistered index or unknown kind queues nothing and leaves the link ready for another request |
| SensorExchange.QueuedProbe | src/serial.c:107-114 | a Probe is echoed byte for byte |
| SensorExchange.QueuedType | src/serial.c:115-117 | a Type request is answered with the sensor's type code in a `send2` frame |
| SensorExchange.QueuedValue | src/serial.c:118-127 | a Value request is answered with the converted fresh average in a `send2` frame |
| SensorExchange.Reply | src/serial.c:82-140 | after a request, the TX interrupts put exactly the owed response on the wire and then return the link to receiving in half duplex; with no response owed, nothing is ever sent |
| SensorExchange.RequestKeepsServo | src/serial.c:97-140 | receiving a request changes neither the servo decoder's position nor the channels nor the `update()` calls, and leaves half duplex on; with no response owed the transmitter stays off |
| SensorExchange.ExchangeKeepsServo | src/serial.c:82-168 | a whole request-and-reply exchange, followed by the timeout, leaves the channels and the `update()` calls as they were and the servo decoder idle, waiting for the next sync |

## Left out

- Hardware setup is not modelled: `initserial` baud and timer programming, `initsensor`, and the `main` functions of lesu.c and volvo.c. They are register writes with no logic.
- `putchar` and the `DEBUG` build are not modelled. They are diagnostic only; the model is the non-`DEBUG` build, which switches to half duplex.
- The ADC conversion is not modelled: channel selection, the 16 settling conversions and the busy-wait on end-of-conversion. The captured reading is a parameter (`sample`) of every event that could trigger a capture.
- Interrupt priorities and nesting, baud timing and the 3.6 ms timer period are not modelled. Each interrupt is a discrete event that runs to completion.
- The timer: `timer` records whether TIM4 is counting. The hardware one-pulse mode clearing the counter on expiry is part of the timeout event.
- The PWM, GPIO, watchdog and TIM2 register writes in `update`, and the `TIM2_UIF` strobe handler, are not modelled. Only the values `update` computes are kept.
- src/passthru.c and src/common.h are not part of this model: a GPIO mirror, and register addresses and macros.
- `tx` holds only the queued response, the front `txq` bytes of the 8-byte buffer. Bytes left behind from a longer earlier response are never sent, so they are dropped.
- `update()` is not called inside the step functions. The link records each frame it was called with in `calls`, and the application's state is `Build.Replay(app, calls)`. This keeps the serial engine independent of the control arithmetic.
- Lesu.Input1: the unbounded formula and the dead-band width are stated only for distances up to 1390 from neutral, where `50 * (d - 80)` does not wrap in 16 bits; beyond that only the bound holds.
- Volvo.Level: the closed forms are stated only up to distance 905, where `100 * (d - 250)` does not wrap in 16 bits.
- Control.Pump: the closed form is stated only for `-1560 <= t < 0x8000 - 60`. Outside that range `t + 60` wraps in int16, or `1500 + t` wraps in uint16. Both builds pass only non-negative demand.
- Volvo.LevelMonotone: monotonicity is stated only up to distance 905. Beyond it `Volvo.Level` wraps and is not monotone; 12-bit channel values can reach that range, the servo pulse range does not.
- Volvo.Demand: the zero test is stated only for distances up to 905 from neutral, where `Volvo.Level` has its closed form.
- Volvo.Update: the trimmed pulse widths of valves 1 and 3 are stated exactly only where `t + trim` does not wrap below 0, which covers the servo range; otherwise they agree with `t + trim` modulo 2^16 through `Volvo.Input1`.
- SensorExchange.QueuedValue: only width-2 types are registered, so the `send4` response is not reachable through a request. `Serial.Frame4` states its frame on its own.
