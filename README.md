# Single-digit LED display firmware, modelled in Dafny

The firmware (`tarefawsl.c`) shows one decimal digit on a 5x5 chain of WS2812
addressable LEDs. Two push-buttons step the digit: button A (GPIO 5) up and
button B (GPIO 6) down, wrapping modulo 10. Each button has a 150 ms software
debounce based on millisecond timestamps. A repeating timer blinks the red
status LED.

The model has one module per component:

- `Widths`: the target's fixed-width integers. `uint64` is used for timestamps
  and `uint32` for pin numbers. Unsigned 64-bit subtraction (`Sub64`) wraps
  explicitly. The SDK's `to_ms_since_boot` returns a 32-bit count, so the clock
  itself wraps after about 49.7 days. The model takes any `uint64` reading for
  `now`, which covers that wrap. Lemmas that assume a clock that never goes back
  (`ReplayTimestampsMonotone`) apply only between such wraps.
- `Color`: `make_grb` on bit-vectors, and the `<< 8` alignment that `put_pixel`
  applies before handing a word to the transport.
- `Glyphs`: the constant `digitMap` table, 10 glyphs of 25 flags each.
- `Matrix`: the LED transport. It is a class whose `Sent` field is the sequence
  of 32-bit words the PIO state machine has accepted. `put_pixel` and
  `update_matrix` append to it. `Frame(d)` is the 25-word frame for digit `d`.
- `Buttons`: `button_callback` as a pure transition `OnPress` on the four
  globals. It is replayed over sequences of presses to state the counting,
  debounce and timestamp properties.
- `Firmware`: the globals as the fields of a `Controller` class, with the
  interrupt handler and the main-loop body as methods. `PowerOn` is `main`.
  Button interrupts may arrive during set-up, before the initial draw. After
  the draw it runs a schedule of interrupts and loop passes, each one an atomic
  step, and is proved against the pure step semantics `Run`.
- `Blink`: `blink_red_led` and its static latch.

The clock reading that `button_callback` takes from `to_ms_since_boot` is the
handler's `now` parameter.

Two facts about the code that the model keeps:

- When no button is pressed during start-up, digit 0 is drawn twice: once
  unconditionally (line 162), and again on the loop's first pass, because
  `g_update_requested` starts `true` (line 44). `Firmware.StartupDrawsZeroTwice` states this.
- The chain snakes along the matrix, as the comment at lines 53-59 shows.
  `digitMap` stores each glyph in chain order, with its second and fourth rows
  mirrored. `update_matrix` sends glyph flag `i` as chain word `i`, and so does
  the model.

## Model

| member | source | states |
|---|---|---|
| `Widths.Sub64` | tarefawsl.c:281 | `now_ms - last_press_a` on `uint64_t`: equals the plain difference when `now >= last`, otherwise wraps to `2^64 + now - last` |
| `Color.MakeGrb` | tarefawsl.c:29-33 | the word is `g*2^16 + r*2^8 + b`, is below `2^24`, and the three bytes can be read back from it |
| `Color.PixelWord` | tarefawsl.c:37 | the word handed to the transport always has a zero low byte |
| `Color.PixelWordLossless` | tarefawsl.c:35-38 | for a 24-bit colour, `<< 8` multiplies by 256, zeroes the low byte and is undone by `>> 8` |
| `Color.WireWord` | tarefawsl.c:29-38 | every `make_grb` result reaches the wire as G, R, B in the top three bytes over a zero padding byte |
| `Color.PixelWordTruncates` | tarefawsl.c:37 | for every word, the 32-bit shift drops everything above bit 23: only the low 24 bits reach the wire |
| `Color.WireColors` | tarefawsl.c:243-244 | the lit colour goes out as `0x0A0A0A00`, the dark one as `0` |
| `Glyphs.Glyph` | tarefawsl.c:64-124 | every digit 0..9 has a glyph of exactly `NUM_PIXELS` = 25 flags |
| `Glyphs.GlyphsDistinct` | tarefawsl.c:64-124 | no two digits share a glyph |
| `Matrix.PixelTransport.PutBlocking` | tarefawsl.c:37 | the transport appends the accepted word to what it has sent |
| `Matrix.PutPixel` | tarefawsl.c:35-38 | exactly one word, the colour shifted left by 8, is appended |
| `Matrix.Frame` | tarefawsl.c:238-257 | the frame `update_matrix` sends is exactly `NUM_PIXELS` = 25 words, each with a zero padding byte |
| `Matrix.FrameShape` | tarefawsl.c:238-257 | a frame has 25 words; word `i` is `0x0A0A0A00` iff the glyph's flag `i` is set and `0` iff it is clear |
| `Matrix.FramesDistinct` | tarefawsl.c:238-257 | different digits produce different frames |
| `Matrix.UpdateMatrix` | tarefawsl.c:238-257 | the transport's output grows by exactly `Frame(digit)`, in pixel order, and nothing else changes; so two calls with one digit send the same 25 words |
| `Buttons.Increment` | tarefawsl.c:288-290 | on a digit in 0..9 the result is `(d + 1) mod 10`, again in 0..9 |
| `Buttons.Decrement` | tarefawsl.c:304-306 | on a digit in 0..9 the result is `(d + 9) mod 10` = `(d - 1 + 10) mod 10`, again in 0..9 |
| `Buttons.Bounced` | tarefawsl.c:281 | the debounce test; once `now >= last` it is exactly `now - last < 150` |
| `Buttons.EarlyPressIgnored` | tarefawsl.c:276-284 | with both timestamps still 0, every press in the first 150 ms after boot is ignored |
| `Buttons.OnPress` | tarefawsl.c:274-310 | the handler keeps the digit in 0..9; an event that is not accepted changes nothing; an accepted one requests a redraw and records `now` as the last press of its own button only (the digit's new value is stated by `PressA` and `PressB`) |
| `Buttons.PressA` | tarefawsl.c:278-293 | an accepted A press gives digit `(d + 1) mod 10`, `last_press_a = now`, a redraw request, and leaves `last_press_b` alone |
| `Buttons.PressB` | tarefawsl.c:294-309 | an accepted B press gives digit `(d + 9) mod 10`, `last_press_b = now`, a redraw request, and leaves `last_press_a` alone |
| `Buttons.IgnoredIffNotAccepted` | tarefawsl.c:274-310 | a press leaves all four globals unchanged if and only if it falls inside its button's window or comes from another pin |
| `Buttons.IncrementDecrementInverse` | tarefawsl.c:287-306 | a step up then a step down, in either order, returns to the same digit |
| `Buttons.PressAThenB` | tarefawsl.c:278-309 | an accepted A followed by an accepted B restores the digit |
| `Buttons.ReplayNet` | tarefawsl.c:274-310 | after any series of presses the digit is the start digit plus accepted A presses minus accepted B presses, mod 10; a redraw is pending iff one was pending or some press was accepted |
| `Buttons.ReplayTimestampsMonotone` | tarefawsl.c:281-301 | with a clock that never goes back, each button's last accepted press only moves forward and never passes the latest press |
| `Buttons.DoublePressWithinWindow` | tarefawsl.c:280-292 | two A presses less than 150 ms apart change the digit once |
| `Buttons.DoublePressApart` | tarefawsl.c:280-292 | two A presses at least 150 ms apart change the digit twice |
| `Buttons.BootScenario` | tarefawsl.c:274-310 | from boot: A at 1000 ms sets the digit to 1 and requests a redraw; B at 2000 ms and 2100 ms steps back once, to 0 |
| `Firmware.Redraw` | tarefawsl.c:167-171 | the loop body changes only the flag, which it clears; it sends the current digit's 25-word frame if a redraw was requested and nothing otherwise |
| `Firmware.Step` | tarefawsl.c:164-174 | an interrupt or a loop pass keeps the digit in 0..9, and what it sends is a series of whole 25-word frames, each the frame of some digit |
| `Firmware.Run` | tarefawsl.c:164-174 | over any schedule of interrupts and loop passes the digit stays in 0..9, and the chain receives only whole frames, each the frame of some digit |
| `Firmware.BootScenarioFrames` | tarefawsl.c:164-174 | from boot, loop passes around A at 1000 ms and B at 2000 ms and 2100 ms send the frames of 0, then 1, then 0; the second B press sends nothing |
| `Firmware.RedrawClears` | tarefawsl.c:167-171 | after a loop pass no redraw is pending, the digit is unchanged, the last frame sent shows it, and an immediate second pass sends nothing |
| `Firmware.RunShowsDigit` | tarefawsl.c:164-174 | under every schedule, either a redraw is pending or the last frame sent shows the current digit |
| `Firmware.StartupDrawsZeroTwice` | tarefawsl.c:161-171 | before any press, the initial draw and the first loop pass both send digit 0's frame, and then no redraw is pending |
| `Firmware.Controller.constructor` | tarefawsl.c:43-47 | the globals start as digit 0, redraw requested, both timestamps 0 |
| `Firmware.Controller.ButtonCallback` | tarefawsl.c:274-310 | the imperative handler, with its early returns, leaves the globals exactly as `OnPress` prescribes |
| `Firmware.Controller.DrawCurrent` | tarefawsl.c:162 | draws the current digit: the transport grows by its frame |
| `Firmware.Controller.PollOnce` | tarefawsl.c:167-171 | the loop body: if a redraw is pending it sends the current frame and clears the flag, otherwise it sends nothing and changes nothing |
| `Firmware.Controller.DeliverSetup` | tarefawsl.c:153-162 | button interrupts between enabling the interrupt (line 153) and the first draw change the globals as the handler does and send nothing |
| `Firmware.Controller.RunSchedule` | tarefawsl.c:164-174 | the main loop with interrupts between its passes: the globals and the output follow `Run` |
| `Firmware.PowerOn` | tarefawsl.c:148-177 | button interrupts may arrive during set-up, since line 153 enables them before the draw at line 162; that draw sends the frame of the digit they leave, the output continues as `Run` prescribes, the globals end as `Run` says, and the display is never stale without a redraw pending |
| `Blink.LatchAfter` | tarefawsl.c:264-265 | after `n` callbacks the latch is on iff `n` is odd |
| `Blink.LatchPeriod` | tarefawsl.c:262-268 | every callback toggles the LED, so ten callbacks (one second at 100 ms) return it to the same level |
| `Blink.BlinkTimer.constructor` | tarefawsl.c:264 | the latch starts `false` (line 264) and the red pin starts low, as `init_led_rgb` leaves it at line 186 |
| `Blink.BlinkTimer.BlinkRedLed` | tarefawsl.c:262-268 | negates the latch, drives the red pin to it, and always returns `true` |

## Left out

- Hardware set-up (`stdio_init_all`, `init_led_rgb`, `init_buttons`, `init_ws2812`): these are SDK calls with no logic of their own. Only their effect on the red pin's initial level is kept.
- The WS2812 PIO program, its bit timing, the `(float)WS2812_FREQ` cast and the blocking in `pio_sm_put_blocking`: the transport is modelled as "append the word to what was sent".
- Timing: the real clock is the `now` parameter. The timer registration with its 100 ms period and `sleep_ms(10)` are not modelled. `Blink.LatchPeriod` counts callbacks, not milliseconds.
- Concurrency: the `volatile` globals, interrupt preemption, and interleaving inside a handler or inside a loop pass are not modelled. Each interrupt and each loop pass is one atomic step, so the model does not capture an interrupt that lands after `update_matrix` read the digit (line 169) but before the flag is cleared (line 170). On the real device that press is shown only after the next accepted press.
- Firmware.Controller.ButtonCallback: the `events` mask is accepted but not used, as in the source.
- `g_current_number` is a C `int`. Its 32-bit overflow is not modelled, because the handler keeps it in 0..9 (`Buttons.OnPress`).
- The green and blue status-LED pins are only initialised by the source, so they are not modelled.
