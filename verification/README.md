# Joystick firmware sampling pipeline, modelled in Dafny

This project models the sampling pipeline of a game-controller firmware.
The firmware reads eight push buttons and four analog stick channels on a
microcontroller and streams a text line over a serial port every 20 ms. The
pipeline has four parts, all in `Core/Src/main.c`:

- **Edge interrupt** (`HAL_GPIO_EXTI_Callback`). It looks the interrupting
  pin up in `button_pins` and sets that button's pending flag.
- **1 kHz tick** (the TIM3 branch of `HAL_TIM_PeriodElapsedCallback`).
  - A pending flag re-arms a 15-tick debounce counter.
  - The counter counts down; when it reaches zero, the button's stable state
    becomes the pin level (active low).
  - Every 100 ticks, buttons that are not mid-debounce are re-polled.
  - Every 20 ticks, the stable states are copied into the packet and an ADC
    conversion is started.
- **Conversion-complete handler** (`HAL_ADC_ConvCpltCallback`).
  - Each raw sample is centred on its calibrated offset and scaled by
    100/2048 with C's truncating division.
  - The samples are mapped onto the four axes with fixed signs, and a dead
    zone of 7 is applied.
  - The packet is rendered as `B:<8 digits>,A:<ly>,<lx>,<ry>,<rx>\n` into an
    80-byte buffer.
- **Start-up calibration** (`ADC_Calibration`). It sums 20 four-channel
  samples in `uint32_t` accumulators and stores each channel's integer mean
  as its zero offset.

Layout:

- `types.dfy`: the C integer widths as subset types, `Option`, and the board
  constants (`button_pins` as the HAL masks `1 << n`).
- `debounce.dfy`: what one tick does to one button, runs of ticks, the
  wrap-safe 32-bit tick arithmetic, and the pin lookup.
- `axis.dfy`: truncating division, scaling, channel mapping and dead zone.
- `frame.dfy`: the `sprintf` rendering, a reader for the frame grammar, the
  round trip between them, and the buffer bound.
- `calibration.dfy`: channel sums and means.
- `firmware.dfy`: class `Joystick`. It holds the C globals: the fixed-size
  C arrays stay `array`s, and the scalars and the two `static` counters are
  fields. It has one method per handler; the methods are proved against the
  per-button and per-axis functions above.
- `scenarios.dfy`: end-to-end properties across calibration, scaling and
  rendering.
- `traces.dfy`: runs of the `Joystick` object from reset, calling its
  handlers in an order they can run in.

External inputs become parameters:

- The pin levels that `HAL_GPIO_ReadPin` returns during a tick are the
  sequence `high` (true means electrically high, i.e. released).
- The ADC start that `HAL_ADC_Start_DMA` performs at a 20-tick boundary is
  the boolean result of `Tick`.
- The DMA-filled `values` array is the parameter of `ConversionComplete`.
- The twenty blocking readings of the calibration are the parameter of
  `Calibrate`.

Where the code and its own comment disagree, the model follows the code:

- Line 169 says the dead zone is 5, but lines 170-173 use 7.

Lines 165 and 166 negate the product *before* dividing. `ScaleAxes`
computes it that way, and its contract proves that this equals negating
the truncated quotient.

Channel 0 feeds `right_Y` with an inverted sign (main.c:166), so a reading
500 above its offset puts -24 in the third axis field
(`Scenarios.DeflectedRightStick`).

## Model

| member | source | states |
|---|---|---|
| `Debounce.DebounceButton` | Core/Src/main.c:105-127 | After the debounce step the pending flag is 0. A set flag leaves the counter at 14, even mid-count. Otherwise a running counter drops by one. The stable state changes only when the counter goes from 1 to 0, and then it becomes 1 iff the pin is low. |
| `Debounce.Repoll` | Core/Src/main.c:134-142 | The re-poll never touches flag or counter. It forces the stable state to the pin level (low = 1) exactly for a button whose counter is 0, and leaves mid-debounce buttons untouched. |
| `Debounce.TickButton` | Core/Src/main.c:104-143 | A whole tick keeps flag and state in {0,1} and the counter at most 15, and it clears the flag. A flagged button ends at 14 with its state unchanged. A state change takes the pin level, and happens only at counter expiry or on a re-poll of an idle button. |
| `Debounce.Arm` | Core/Src/main.c:228-230 | An edge sets the pending flag to 1 and changes neither counter nor state. |
| `Debounce.BounceWithinWindowHolds` | Core/Src/main.c:108-125 | While a debounce window is open, no pin activity, re-poll or further edge changes the stable state. Edges only re-arm (extend) the window. |
| `Debounce.QuietWindowResolves` | Core/Src/main.c:115-125 | A window that runs out with no edges and a steady pin leaves the button idle, with its state equal to the pin level. |
| `Debounce.SettledStays` | Core/Src/main.c:115-142 | An idle button whose state already matches its steady pin never changes again without a new edge. |
| `Debounce.CleanEdgeFlipsOnce` | Core/Src/main.c:105-143 | One clean edge and a steady pin: the state holds for the 15-tick window, then takes the pin level, and keeps it for all later quiet ticks. |
| `Debounce.RepollRecoversMissedEdge` | Core/Src/main.c:130-143 | A missed edge is recovered: on a re-poll tick, an idle button takes the pin level. |
| `Debounce.MissedEdgeRecovered` | Core/Src/main.c:101-143 | A missed edge is recovered within 100 ticks. Take an idle button with no further edges and a steady pin, ticked by the firmware's own counters with the re-poll run exactly when due. Its state does not change for the `100 - Elapsed` ticks before the re-poll, and on that tick it takes the pin level. |
| `Debounce.Next` | Core/Src/main.c:101-102 | `++tick_1kHz` adds one and wraps from 0xFFFFFFFF to 0. |
| `Debounce.Elapsed` | Core/Src/main.c:131 | `tick - last_check_tick` is unsigned 32-bit subtraction: the plain difference, or that difference plus 2^32 across the wrap. |
| `Debounce.RepollDue` | Core/Src/main.c:131 | The re-poll test fires iff at least 100 ticks have passed since the last re-poll: the plain difference when the counter has not wrapped since, and the difference plus 2^32 when it has. |
| `Debounce.RepollCadence` | Core/Src/main.c:130-133 | Between re-polls the elapsed count grows by exactly one per tick, also across the wrap. The re-poll fires exactly when it reaches 100, and resetting `last_check_tick` makes it 0. |
| `Debounce.SampleDue` | Core/Src/main.c:146 | A snapshot and conversion tick is exactly a tick that is a multiple of 20. |
| `Debounce.SampleCadence` | Core/Src/main.c:146 | Snapshot and conversion ticks are exactly 20 apart away from the 32-bit wrap. Across the wrap one interval is 16 ticks. |
| `Debounce.FindPin` | Core/Src/main.c:226-233 | The search returns the first slot from the start index whose mask equals the pin (no earlier slot matches), and returns nothing iff the pin is absent from that part of the table. |
| `Debounce.ButtonOfPinExact` | Core/Src/main.c:55-58 | The masks in `button_pins` are distinct, so the lookup gives button i iff `button_pins[i]` is the pin, and nothing iff no button uses the pin. |
| `Axis.TruncDiv` | Core/Src/main.c:164 | C division truncates toward zero: the remainder has the dividend's sign and is smaller than the divisor in magnitude. |
| `Axis.TruncDivNegate` | Core/Src/main.c:165-166 | Negating before dividing equals negating the truncated quotient. |
| `Axis.Centred` | Core/Src/main.c:164-167 | A scaled channel has magnitude at most 3199, so it fits `int16_t`. It is 0 when raw equals offset, and it is never of the opposite sign to raw minus offset. Truncation toward zero makes gaps of 20 or less give 0. |
| `Axis.ScaleAxes` | Core/Src/main.c:164-167 | The fixed mapping: left_Y = scaled channel 2, left_X = -(scaled channel 3), right_Y = -(scaled channel 0), right_X = scaled channel 1. |
| `Axis.DeadZone` | Core/Src/main.c:170-173 | The dead-zone result is 0 or the input. A nonzero result has magnitude at least 7, and inputs of magnitude 7 or more pass unchanged. |
| `Axis.DeadZoneIdempotent` | Core/Src/main.c:170-173 | Applying the dead zone twice equals applying it once. |
| `Axis.DeadZoneBoundary` | Core/Src/main.c:169-173 | Magnitude 6 is zeroed; magnitude 7 survives with its sign. |
| `Axis.ConvertAxes` | Core/Src/main.c:164-179 | The stored axes are the dead-zoned, sign-mapped, scaled channels, and all fit the packet's `int16_t` fields. |
| `Axis.CentreReadsZero` | Core/Src/main.c:162-173 | A stick resting exactly on its offsets reads 0 on all four axes. |
| `Axis.NoiseReadsZero` | Core/Src/main.c:164-173 | A reading at most 143 away from its offset scales to magnitude at most 6, so the dead zone zeroes it for either axis sign. |
| `Axis.NoiseBandTight` | Core/Src/main.c:164-173 | 143 is the widest such band: 144 above the offset scales to 7, which survives the dead zone. |
| `Frame.NatToString` | Core/Src/main.c:182-188 | `%d` of a non-negative value gives at least one decimal digit and no leading zero. |
| `Frame.IntToString` | Core/Src/main.c:187-188 | `%d` of an axis starts with a minus sign iff the value is negative, and contains no comma or newline. |
| `Frame.Render` | Core/Src/main.c:182-188 | The rendered line starts with `B:`, ends with a newline, and has at least 13 characters more than there are buttons (one digit or more per button, plus `B:`, `,A:`, four axis fields, three commas and the newline). |
| `Frame.ParseIntToString` | Core/Src/main.c:187-188 | Reading a rendered `%d` field gives back the value, for every integer. |
| `Frame.RenderParses` | Core/Src/main.c:182-188 | With one-digit buttons, the frame holds button i's digit at position 2+i, and the frame reader recovers the whole packet (buttons in index order, then left_Y, left_X, right_Y, right_X). |
| `Frame.RenderFitsBuffer` | Core/Src/main.c:91 | For any `uint8_t` buttons and `int16_t` axes, the frame has at most 57 characters, so it and its NUL fit the 80-byte `message` buffer. |
| `Calibration.ChannelSum` | Core/Src/main.c:209-212 | The sum of n `uint16_t` readings is at most n * 65535. |
| `Calibration.Mean` | Core/Src/main.c:217-220 | The offset is the sum divided by the count, rounding down: offset*n <= sum < (offset+1)*n. |
| `Calibration.MeanWithinSamples` | Core/Src/main.c:217-220 | Each offset lies between any lower and upper bound of that channel's readings, so it fits `uint16_t`. |
| `Calibration.SteadyStickCalibratesToReading` | Core/Src/main.c:203-220 | Readings that never change calibrate to exactly that reading. |
| `Calibration.SumFits32` | Core/Src/main.c:211 | Twenty readings never overflow the `uint32_t` accumulator. |
| `Scenarios.UntouchedStickReadsZero` | Core/Src/main.c:160-221 | Calibrate on an untouched but noisy stick, then read it at rest: when each channel's calibration readings and later reading all lie in one band at most 143 wide, the offsets `Calibrate` stores (the channel means) make every axis 0, however often it is recalibrated. |
| `Scenarios.SteadyStickReadsZero` | Core/Src/main.c:160-221 | The noiseless instance: calibration readings and the later reading all equal `rest` give 0 on every axis. |
| `Scenarios.RestingFrame` | Core/Src/main.c:164-188 | All channels at 2048, calibrated at 2048, no button pressed: the frame is `B:00000000,A:0,0,0,0\n`. |
| `Scenarios.DeflectedRightStick` | Core/Src/main.c:164-173 | Channel 0 at 500 above its offset gives right_Y = -24, and the other axes are 0. |
| `Scenarios.ZeroFrame` | Core/Src/main.c:182-188 | No button pressed and all axes 0: the frame is `B:00000000,A:0,0,0,0\n`. |
| `Scenarios.PressedButtonFrame` | Core/Src/main.c:182-188 | Button 2 pressed and right_Y = -24: the frame is `B:00100000,A:0,0,-24,0\n`. |
| `Firmware.Joystick.constructor` | Core/Src/main.c:60-79 | At reset, all flags, counters, states, packet fields, offsets, sums and both tick counters are zero, the object invariant holds, and the six tables are new arrays that the handlers may write. |
| `Firmware.Joystick.ExtiCallback` | Core/Src/main.c:223-234 | An edge on a listed pin sets exactly that button's flag to 1. An unlisted pin changes nothing. No counter, state or other field can change (frame). |
| `Firmware.Joystick.Tick` | Core/Src/main.c:99-157 | The tick counter advances with wrap. Every button moves by `TickButton`, and the re-poll runs iff `RepollDue`, which resets `last_check_tick`. A conversion is requested iff the tick is divisible by 20, and then the packet buttons equal the stable states; otherwise they are unchanged. The object invariant is kept (states and packet buttons in {0,1}, re-poll due within 100 ticks). |
| `Firmware.Joystick.DebounceButtons` | Core/Src/main.c:105-127 | The loop applies `DebounceButton` to every slot. |
| `Firmware.Joystick.RepollButtons` | Core/Src/main.c:134-142 | The loop applies `Repoll` to every slot. |
| `Firmware.Joystick.SnapshotButtons` | Core/Src/main.c:149-152 | The packet buttons become a copy of the stable states. |
| `Firmware.Joystick.ConversionComplete` | Core/Src/main.c:160-192 | The packet axes become `ConvertAxes` of the samples and offsets. The message is the rendered packet, it reads back as the packet, and it fits the buffer. Buttons and offsets are untouched. |
| `Traces.StartupAtRest` | Core/Src/main.c:160-221 | From reset, calibrating on an untouched stick and then converting a reading at the same rest position yields the frame `B:00000000,A:0,0,0,0\n`. |
| `Traces.PressButtonTwo` | Core/Src/main.c:99-157 | From reset, an edge on GPIO_PIN_3 (button 2) with that pin held low, then 20 ticks: the 20th tick requests a conversion, and the packet buttons are then `0,0,1,0,0,0,0,0`. |
| `Firmware.Joystick.Calibrate` | Core/Src/main.c:194-221 | The count ends at 20 and each accumulator holds its channel's sum. The 32-bit wrap is modelled and never taken. Each offset is the channel mean, and the 16-bit narrowing is modelled and never taken. |

## Left out

- The TIM6 branch of the timer callback (LED toggle) is a pure hardware side effect.
- The transmission itself (`HAL_UART_Transmit_DMA`) is asynchronous I/O. The model stops at the content of `message`.
- `HAL_Delay` and the real-time accuracy of the 1 kHz tick and the 10 ms calibration spacing are not modelled. Calibration readings are taken as given; a conversion that is still running when the delay ends is not modelled.
- `main`, `SystemClock_Config`, `Error_Handler` and `assert_failed` are peripheral and clock set-up and a terminal halt.
- Interleaving of the edge, tick and conversion interrupts, and `volatile` semantics, are not modelled. Each handler is one atomic step on the shared object.
- The `hadc == &hadc1` test is not modelled. Only `hadc1` is initialised and started, so the handler always takes that branch.
- `Firmware.Joystick.Tick`: each button's pin is read once per tick. The C reads it up to twice (at debounce expiry and at the re-poll), so a level change between those two reads within one handler run is not captured.
- `Firmware.Joystick.Calibrate`: each of the 20 conversions the calibration starts also ends in the conversion-complete handler, which renders a frame from the global `values` and the offsets not yet written and hands it to the UART. These 20 renders and sends are not modelled: `Calibrate` leaves the axes and `message` untouched.
