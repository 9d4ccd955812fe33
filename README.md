# NeoPixel ESP8266 bit-bang encoders, modelled in Dafny

This project models the three ESP8266 bit-bang encoders of the NeoPixelBus
library in `NeoPixelesp8266.c`, and proves properties of the model:

- `send_pixels_800` (WS2812, 800 kHz) and `send_pixels_400` (WS2811,
  400 kHz) each send one byte buffer on one GPIO pin. Every bit is a high
  pulse within a fixed bit period: T1H cycles for a 1, T0H cycles for a 0.
  Bytes go out in buffer order, most significant bit first.
- `send_multibus_pixels_800` sends up to eight buffers at 800 kHz in
  lockstep. Every bit period does three things:
  - it sets the pins of all buses at once;
  - after T0H it clears the pins of the buses whose bit is 0;
  - after T1H it clears the pins of the buses whose bit is 1.

  Between the two clears of bit j, bus j moves its byte cursor.

The model is written in the source's own form:

- The encoders are methods with the source's loops: the byte loop, the
  `bitMask` loop, the bus loops and the spin-waits.
- They run against a `CycleClock` object, which is the free-running cycle
  counter.
- They write to a `Gpio` object: the GPIO output word, plus a trace of
  every W1TS/W1TC register write, each stamped with the counter value.
- Each encoder returns a ghost record of the pulses (one bus) or bit slots
  (all buses) it sent. Its postcondition ties the register trace to that
  record, and characterises the record by a specification predicate:
  - `SingleBus.Waveform` for one bus;
  - `MultiBus.MultiWaveform` for several buses.
- Lemmas about those predicates give:
  - the receiver's round trip (decoding the high times gives back the
    bytes);
  - the output word each run leaves;
  - the termination and cursor behaviour of the multi-bus loop.

Modules (one per file):

- `Words` (`words.dfy`): 32-bit wrap-around arithmetic, the `bitMask`
  values, `_BV(pin)`, and bytes as bits.
- `Timing` (`timing.dfy`): the `CYCLES_*` budgets.
- `CycleCounter` (`cycle_counter.dfy`): `_getCycleCount` and the spin-wait.
- `GpioPort` (`gpio_port.dfy`): the W1TS/W1TC registers and write replay.
- `SingleBus` (`single_bus.dfy`): the two single-pin encoders and their
  decoding.
- `MultiBus` (`multi_bus.dfy`): the multi-bus encoder, its cursors, its
  masks and its decoding per bus.

## Model

| member | source | states |
|---|---|---|
| Words.Sub32 | NeoPixelesp8266.c:69 | `a - b` on `uint32_t`: the unique word r with b + r equal to a modulo 2^32, which is the elapsed time the spin-waits compare |
| Words.Add32 | NeoPixelesp8266.c:29-34 | the counter advancing by n modulo 2^32; the wrapped distance back to the old value is exactly n |
| Words.SubChain | NeoPixelesp8266.c:64-69 | wrapped elapsed times add up along three readings unless the sum wraps, and never exceed the sum |
| Words.SubBack | NeoPixelesp8266.c:51 | `cyclesStart = _getCycleCount() - CYCLES_800` puts the reference exactly one period before the reading |
| Words.BitMaskStep | NeoPixelesp8266.c:55 | `bitMask` starts at 0x80, and `>>= 1` walks it through bits 0..7, most significant first; testing `subpix & bitMask` reads bit j; the mask is 0 exactly after the eighth bit |
| Words.PinMask | NeoPixelesp8266.c:45 | `_BV(pin)` is `1 << pin` for every pin below 32 (the model builds it one doubling at a time only as a proof device) |
| Words.ByteOfBitsInverse | NeoPixelesp8266.c:55-58 | reassembling a byte's eight bits, most significant first, gives the byte back |
| Timing.Budget800 | NeoPixelesp8266.c:36-38 | `F_CPU/2500000`, `F_CPU/1250000`, `F_CPU/800000`, with T0H <= T1H <= period for every clock frequency |
| Timing.Budget400 | NeoPixelesp8266.c:39-41 | `F_CPU/2000000`, `F_CPU/833333`, `F_CPU/400000`, with T0H <= T1H <= period for every clock frequency |
| Timing.BudgetsOrdered | NeoPixelesp8266.c:36-41 | from 2.5 MHz up, both classes keep T0H < T1H < period strictly |
| Timing.BudgetsAt80And160MHz | NeoPixelesp8266.c:36-41 | the budgets at 80 MHz (32/64/100 and 40/96/200) and at 160 MHz (64/128/200 and 80/192/400) |
| CycleCounter.CycleClock.Read | NeoPixelesp8266.c:29-34 | `_getCycleCount()`: the next reading, 1 to `maxGap` cycles after the previous one, wrapping at 2^32 |
| CycleCounter.WaitUntil | NeoPixelesp8266.c:64-69 | the `do { read } while (c - base < threshold)` spin: it returns a reading at least `threshold` cycles after `base`; starting at or below the threshold, it overshoots by at most one read gap; a threshold already passed is left within one read gap |
| GpioPort.SetDrivesMaskHigh | NeoPixelesp8266.c:72 | a W1TS write drives every pin of its mask high |
| GpioPort.SetKeepsOtherPins | NeoPixelesp8266.c:72 | a W1TS write leaves the pins outside its mask unchanged |
| GpioPort.ClearDrivesMaskLow | NeoPixelesp8266.c:81 | a W1TC write drives every pin of its mask low |
| GpioPort.ClearKeepsOtherPins | NeoPixelesp8266.c:81 | a W1TC write leaves the pins outside its mask unchanged |
| GpioPort.ClearAfterSet | NeoPixelesp8266.c:72-81 | a set followed by a clear of the same mask leaves the same word as the clear alone |
| GpioPort.ClearTwice | NeoPixelesp8266.c:81 | clearing a mask twice is clearing it once |
| GpioPort.Gpio.SetBits | NeoPixelesp8266.c:72 | `GPIO_REG_WRITE(GPIO_OUT_W1TS_ADDRESS, mask)`: appends (W1TS, mask, counter) to the trace and sets the mask in the output word |
| GpioPort.Gpio.ClearBits | NeoPixelesp8266.c:81 | `GPIO_REG_WRITE(GPIO_OUT_W1TC_ADDRESS, mask)`: appends (W1TC, mask, counter) to the trace and clears the mask in the output word |
| SingleBus.HighTime | NeoPixelesp8266.c:58 | `cyclesBit` (also line 106 at 400 kHz): the high time chosen for bit j is T0H or T1H, and when T0H < T1H it reaches T1H exactly for a 1 |
| SingleBus.SendBit | NeoPixelesp8266.c:58-81 | one bit: rising edge at least a period after the previous rising edge, high for `cyclesBit` up to `cyclesBit + maxGap` cycles, one W1TS and one W1TC of the pin, the pin left low; a period already elapsed rises within one read gap |
| SingleBus.SendNextBit | NeoPixelesp8266.c:55-82 | one pass of the `bitMask` loop: the pulse for bit j of `subpix` (T1H for a 1, T0H for a 0) extends the byte in progress, timed from the last rising edge |
| SingleBus.SendByte | NeoPixelesp8266.c:55-82 | the `bitMask` loop: eight pulses carrying the byte's bits most significant first, 16 writes, the pin left low |
| SingleBus.SendNextByte | NeoPixelesp8266.c:54-82 | `subpix = *pixels++` and its eight bits: the train grows by the byte under the cursor and the cursor moves by one |
| SingleBus.ByteSoFarSnoc | NeoPixelesp8266.c:55-82 | a pulse for bit n, a period after the last rising edge, extends a byte in progress |
| SingleBus.TrainNextByte | NeoPixelesp8266.c:52-83 | eight more pulses carrying the next byte extend the train of the buffer by that byte |
| SingleBus.TrainWaveform | NeoPixelesp8266.c:52-83 | the train built by the byte loop is the waveform of `mem[pixels..end]`, its first rise a period after the starting reference |
| SingleBus.Stop800 | NeoPixelesp8266.c:52-83 | the do-while sends `end - pixels` bytes for a non-empty range and exactly one byte otherwise |
| SingleBus.SendPixels800 | NeoPixelesp8266.c:43-90 | the waveform of `mem[pixels..Stop800]` on `_BV(pin)`: eight pulses per byte, bits most significant first, high times in [T, T + maxGap] for the chosen T0H/T1H, rising edges at least a period apart; 16 writes per byte; the output word has the pin cleared and equals the replay of the trace; the first rise within two read gaps of the call |
| SingleBus.SendPixels400 | NeoPixelesp8266.c:92-137 | the same waveform for `mem[pixels..end]` with the 400 kHz budget; an empty range writes no register and leaves the output word as it was |
| SingleBus.DecodeByThreshold | NeoPixelesp8266.c:58 | high times that reach T1H exactly where the bytes' bits are set decode to those bytes |
| SingleBus.HighTimesRoundTrip | NeoPixelesp8266.c:58 | decoding the chosen high times (T1H is 1, T0H is 0) gives back the buffer, whenever T0H < T1H |
| SingleBus.WaveformRoundTrip | NeoPixelesp8266.c:52-83 | when a read gap is shorter than T1H - T0H, decoding the measured high times of a waveform gives back its bytes |
| SingleBus.PulsesLeaveMaskLow | NeoPixelesp8266.c:72-81 | after every bit of a train on one pin, replaying the writes so far leaves that pin low and every other pin as it was |
| SingleBus.ReplayPulses | NeoPixelesp8266.c:72-81 | replaying a non-empty train on one pin clears that pin and nothing else |
| SingleBus.WaveformReplay | NeoPixelesp8266.c:72-81 | the output word a waveform leaves: the pin cleared, or the word unchanged when nothing was sent |
| SingleBus.ScenarioOneByte | NeoPixelesp8266.c:58 | byte 0xB2 at 800 kHz and 80 MHz has high times 64, 32, 64, 64, 32, 32, 64, 32 |
| MultiBus.CursorAt | NeoPixelesp8266.c:225-233 | cursor i in byte period k lies between the bus's `_pixels` and its last cursor |
| MultiBus.AdvancesIff | NeoPixelesp8266.c:225-233 | bus i moves its cursor in period k exactly when i < min(countBuses, 8) and k is below its length; cursors never pass `_end`; buses from index 8 on never move |
| MultiBus.CursorNext | NeoPixelesp8266.c:225-233 | one byte period moves a cursor by one exactly when it advances |
| MultiBus.MaxLenBounds | NeoPixelesp8266.c:245 | the longest of the first n buses bounds each of them and is reached by one |
| MultiBus.AnyBeforeIff | NeoPixelesp8266.c:225-233 | `morePixels` after bit j is set exactly when period k is below the longest of the first j buses |
| MultiBus.MorePixelsIff | NeoPixelesp8266.c:245 | the do-while goes on after period k exactly when k + 1 < MaxLen + 1, so it runs one period more than the longest of the first eight buses |
| MultiBus.Samples | NeoPixelesp8266.c:164-167 | `subpix[]` in period k has one byte per bus |
| MultiBus.BusStreamShape | NeoPixelesp8266.c:164-167 | bus i < 8 sends its own bytes and then the byte at its `_end` until the longest bus is done; a bus from index 8 on sends its first byte in every period |
| MultiBus.BitsAt | NeoPixelesp8266.c:177 | under the j-th `bitMask` (0x80 shifted right j times), the test `subpix[indexBus] & bitMask` reads bit j of every bus's byte, most significant first |
| MultiBus.MasksPartition | NeoPixelesp8266.c:172-185 | the OR of `pinRegisters1Bit` and `pinRegisters0Bit` is `pinRegistersAll`, for any bytes |
| MultiBus.MaskCovers | NeoPixelesp8266.c:174-185 | a bus's pins are in the 1-mask when its bit is set and in the 0-mask when it is clear |
| MultiBus.MaskExact | NeoPixelesp8266.c:174-185 | with disjoint pins, a bus whose bit is set has no pin in the 0-mask, and one whose bit is clear has no pin in the 1-mask |
| MultiBus.ClearSplit | NeoPixelesp8266.c:200-242 | set all pins, clear the 0-mask, clear the 1-mask: when the masks cover all the pins, the result is all the pins cleared |
| MultiBus.SlotEventsOfSlot | NeoPixelesp8266.c:200-242 | writes 3n, 3n + 1 and 3n + 2 of a run are W1TS(all), W1TC(0-mask) and W1TC(1-mask) of bit n |
| MultiBus.PeriodSoFarSnoc | NeoPixelesp8266.c:169-243 | a slot carrying the next bit, a period after the last rising edge, extends the byte period in progress |
| MultiBus.FramesNextPeriod | NeoPixelesp8266.c:158-245 | eight slots carrying the bytes of period k extend the run by that period |
| MultiBus.FramesWaveform | NeoPixelesp8266.c:158-245 | a run of `Periods` byte periods is the multi-bus waveform, its first rise a period after the starting reference |
| MultiBus.ReplaySlots | NeoPixelesp8266.c:200-242 | replaying slots whose two clears cover the pins they set leaves those pins low and the rest as they were |
| MultiBus.SlotsLeaveMaskLow | NeoPixelesp8266.c:199-242 | after every bit of a run, replaying the writes so far leaves `pinRegistersAll` low and every other pin as it was |
| MultiBus.MultiReplay | NeoPixelesp8266.c:199-242 | the output word a whole run leaves: `pinRegistersAll` cleared |
| MultiBus.SlotDecodes | NeoPixelesp8266.c:199-242 | with disjoint, non-empty pin masks and a read gap shorter than T1H - T0H, bus i's pins stay high for at least T1H exactly when its bit is set |
| MultiBus.FallOfBit | NeoPixelesp8266.c:222-242 | bus i's pins go low at the 1-mask clear when its bit is set and at the 0-mask clear when it is clear |
| MultiBus.AllCover | NeoPixelesp8266.c:150-154 | every bus's pins lie inside the OR of the masks of any first n buses that include it |
| MultiBus.SlotPins | NeoPixelesp8266.c:172-185 | with disjoint pins, bus i's pins lie inside `pinRegistersAll`, outside the 0-mask when its bit is set and inside it when it is clear |
| MultiBus.LevelAfterSplit | NeoPixelesp8266.c:199-222 | setting all pins and then clearing the 0-mask leaves pins placed by that split high for a 1 bit and low for a 0 bit, whatever the word before |
| MultiBus.SlotEventsPrefix | NeoPixelesp8266.c:199-222 | the first 3n + 2 writes of a run are the writes of the slots before n, then W1TS(all) and W1TC(0-mask) of slot n |
| MultiBus.BusLevelMidSlot | NeoPixelesp8266.c:199-242 | between the 0-mask clear and the 1-mask clear of bit n, bus i's pins are all high when the bit it sends there is set and all low when it is clear (disjoint pins) |
| MultiBus.BusRoundTrip | NeoPixelesp8266.c:139-252 | decoding the high times bus i's pins see gives back the bytes under bus i's cursor, one per byte period |
| MultiBus.ScenarioTwoBuses | NeoPixelesp8266.c:139-252 | buses of one and three bytes run four periods; the short bus repeats the byte at its end |
| MultiBus.CursorsNextPeriod | NeoPixelesp8266.c:164-233 | after the eight bits of period k the cursors are those of period k + 1 |
| MultiBus.InitBuses | NeoPixelesp8266.c:150-154 | every cursor starts at its bus's `_pixels`, and `pinRegistersAll` is the OR of every bus's `_pinRegister` |
| MultiBus.LoadSubpixels | NeoPixelesp8266.c:164-167 | `subpix[]` holds the byte under each cursor in period k, which is the byte at `_end` once a bus is exhausted |
| MultiBus.SplitMasks | NeoPixelesp8266.c:172-185 | the 1-mask collects the buses whose bit under `bitMask` is set, the 0-mask the others, and together they are `pinRegistersAll` |
| MultiBus.SplitOne | NeoPixelesp8266.c:176-184 | one pass of the mask loop adds bus i's pins to the mask its bit selects |
| MultiBus.SendSlotHigh | NeoPixelesp8266.c:188-222 | rising edge at least a period after the previous one, W1TS of all pins, then W1TC of the 0-mask T0H to T0H + maxGap cycles after the rise |
| MultiBus.AdvanceCursor | NeoPixelesp8266.c:224-233 | in bit j, if bus j exists, its cursor moves exactly when it is below `_end`, `morePixels` records that, and `indexNextBus` moves on |
| MultiBus.SendSlotLow | NeoPixelesp8266.c:235-242 | W1TC of the 1-mask at least T1H after the rise, and at most one read gap past T1H when the wait starts by then |
| MultiBus.SendNextSlot | NeoPixelesp8266.c:171-242 | one pass of the `bitMask` loop: a slot carrying bit j of every bus's byte extends the period, and bus j takes its cursor turn |
| MultiBus.SendBits | NeoPixelesp8266.c:169-243 | the `bitMask` loop: eight slots carrying the period's bytes, 24 writes, all pins low after, and every cursor one turn on |
| MultiBus.SendPeriod | NeoPixelesp8266.c:160-243 | one byte period: load the bytes under the cursors, send their eight bits, and compute `morePixels` |
| MultiBus.SendNextPeriod | NeoPixelesp8266.c:158-245 | one pass of the do-while: the run grows by one byte period |
| MultiBus.SendMultibus800 | NeoPixelesp8266.c:139-252 | the multi-bus waveform: `Periods(buses)` byte periods; slot n carries bit n % 8 of the bytes under the cursors in period n / 8; the 1-mask and 0-mask split `pinRegistersAll` by that bit; 0-bit pins fall T0H to T0H + maxGap cycles after the rise and 1-bit pins at least T1H after it, and at most T1H + maxGap when T0H + maxGap <= T1H; rising edges at least a period apart; 24 writes per period; all pins low after, and the output word equals the replay of the trace |

## Left out

- The cycle counter is abstract. `CycleClock.Read` advances it by 1 to
  `maxGap` cycles, chosen freely. This bound is the model's form of
  running the encoders with interrupts off. The round-trip lemmas need a
  read gap shorter than T1H - T0H.
- A register write takes no time: it is stamped with the last counter value
  read. The time from a reading to the write that follows it is not
  modelled.
- `_BV(pin)` is modelled for `pin < 32` only. In C, shifting a 32-bit 1 by 32
  or more is undefined behaviour.
- `F_CPU` is the parameter `fcpu` of the encoders and of the budgets.
- Memory is a `seq<bv8>`, and the addresses `pixels`, `end`, `_pixels` and
  `_end` are indices into it. The encoders require every byte they read
  to lie in memory:
  - `send_pixels_800` reads the byte at `pixels` even for an empty range;
  - `send_multibus_pixels_800` reads the byte at each of the first eight
    buses' `_end`, and the byte at `_pixels` of every bus from index 8 on
    and of every bus whose `_end` is not above its `_pixels` (`Readable`).
- `countBuses` is a `uint8_t`, so the model requires fewer than 256 buses.
- A bus's `_pinRegister` is any 32-bit mask. The per-bus round trip
  additionally assumes the buses' masks are disjoint and non-empty.
- `PixelBusInfo` is reduced to the three fields the encoder reads. Register
  addresses, `ICACHE_RAM_ATTR` placement, the `#if defined(ESP8266)` guard
  and the header `NeoPixelEsp8266.h` are not part of this model.
- Concurrency and electrical behaviour are not modelled: interrupts, other
  writers of the GPIO register, rise times, and the LEDs' tolerances.
- The reset (latch) gap between frames is not modelled. The encoders
  return right after their last W1TC write; the gap is the caller's job,
  done by the delays at the top of `Show()`, which is not part of this
  model. The final waits commented out at lines 85-89, 132-136 and 247-251
  would only finish the last bit's period, one period after its rise.
- The commented-out alternative cursor step at lines 202-213 is not
  modelled.
- The waveform predicates state no upper bound on the time between rising
  edges, and so none on a bit's low time, because the source promises only
  the lower bound of one period. `WaitUntil`'s overshoot clause would give
  period + maxGap whenever the wait starts within the period (T1H + maxGap
  <= period for one pin), but the waveform predicates do not carry it.
- MultiBus.MultiWaveform: bounds the high time of a 1 bit from above, by
  T1H + maxGap, only when T0H + maxGap <= T1H. Otherwise the 0-mask clear
  can land after T1H. The 1-mask wait then exits on its first read, up to
  one read gap after that clear, which can be later than T1H + maxGap.
  The cursor step between the two clears takes no time in the model.
- SingleBus.SendPixels800: as written, an empty range still sends the byte
  at `pixels`, because the loop is a do-while. A caller would expect a
  zero-length buffer to send no pulses; this encoder sends one byte. The
  model follows the code; `SendPixels400`, a while loop, does send nothing.
- MultiBus.SendMultibus800: as written, the loop runs one byte period more
  than the longest buffer. In that period, and whenever a bus is
  exhausted, it resends the byte at `_end`. Buses from index 8 on never
  advance and repeat their first byte. A run of exactly the longest buffer
  would be expected. The model follows the code.
