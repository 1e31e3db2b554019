# CounterRGB: a verified model of the two-digit push-button counter firmware

The firmware drives a two-digit, red/green seven-segment display from two
active-low push buttons. Each pass of its endless main loop does four things:

1. It samples the buttons and runs the debounced counter `count`, which keeps
   a value in 0..99.
2. It picks green when the value is exactly 1 and red otherwise.
3. It advances an activity counter and compares it with two timeouts, which
   gives normal, dimmed or blank-and-sleep.
4. It draws the two digits one after the other (`showValue`/`enableDigit`),
   or switches the display off.

The model has five modules:

- `Pins` (pins.dfy): the default board's pin map and the tuning constants
  (`DEBOUNCE_COUNT` = 200, `DIM_TIMEOUT` = 100000, `SHUTOFF_TIMEOUT` = 300000,
  the 50 µs on-time and the 200 µs dimming off-time).
- `Counter` (counter.dfy): one call of `count` as a pure function `CountStep`
  over `CounterState`. That state holds count's four statics and the global
  `_activityCount`. The module also has lemmas about one call and about runs
  of calls.
- `Display` (display.dfy): enableDigit's segment lookup on `bv8` port values
  (`SegmentMasks`, `DigitPorts`). `ShowValue` gives showValue as a trace of
  `Event`s: a digit pattern written, a cathode switched on, the cathodes
  cleared, or a busy wait of some microseconds. `Run` gives the port values
  such a trace leaves, and `Shown` gives what a viewer sees.
- `MainLoop` (main_loop.dfy): the power choice `PowerFor`, the colour rule
  `ColorFor`, and one loop pass `IterationStep`, with lemmas over single
  passes and over runs of passes.
- `Firmware` (firmware.dfy): class `Controller`. Its fields are count's
  statics, `_activityCount` and PORTB/PORTC/PORTD. Its methods (`Count`,
  `DisplayOff`, `EnableDigit`, `ShowValue`, `Refresh`, `Iterate`) update those fields in
  place, in the same order as the C code. `Count`, `EnableDigit`,
  `ShowValue`, `Refresh` and `Iterate` are proved equal to the pure functions
  above them; `DisplayOff` states its new state directly.

Behaviour that is easy to miss in the code:

- When both buttons are pressed (reading 0x00) and the debounce completes,
  `validCount` is not set, because that reading falls into the switch's
  `default`. The count does not change. The activity counter is still reset,
  and this repeats every 200 readings while both buttons stay held.
- The colour is green exactly when the count is 1.
- The idle reading is 0x0C, meaning both buttons released. The
  both-pressed reading 0x00 is a non-idle reading.
- Any completed debounce resets the activity counter, including one that
  changes nothing.

## Model

| member | source | states |
|---|---|---|
| `Display.SegmentMasksShowGlyph` | Firmware/CounterRGB/CounterRGB/CounterRGB.c:204-247 | under the default pin map, the bit masks for digit d drive exactly the segments of d's standard seven-segment shape, and none for values outside 0..9 |
| `Display.DigitPorts` | Firmware/CounterRGB/CounterRGB/CounterRGB.c:199-251 | enableDigit's new PORTC/PORTB light exactly the glyph of d; PC6 and PB2..PB7 keep their old values; the decimal point is off |
| `Display.DigitSlot` | Firmware/CounterRGB/CounterRGB/CounterRGB.c:263-276 | one digit slot, with the gap that follows it when dimmed, shows exactly that digit on its cathode line, ends with every cathode off, and takes 50 µs, plus 200 µs when intensity == 0 |
| `Display.BlankSlot` | Firmware/CounterRGB/CounterRGB/CounterRGB.c:277-285 | the wait that replaces a dark tens digit shows nothing, changes no port, and lasts exactly as long as a digit slot |
| `Display.ShowValueDisplaysDigits` | Firmware/CounterRGB/CounterRGB/CounterRGB.c:255-296 | after clamping the value to 99, showValue lights the units digit, then the tens digit only when the value is at least 10; it uses the green cathodes iff color != 0; it ends with all cathodes off and PD0..PD3 (inputs and pull-ups) unchanged |
| `Display.ShowValueCycleTime` | Firmware/CounterRGB/CounterRGB/CounterRGB.c:261-296 | total busy-wait is 100 µs at full intensity and 500 µs when intensity == 0, whether or not the tens digit is drawn |
| `Counter.CountStep` | Firmware/CounterRGB/CounterRGB/CounterRGB.c:134-196 | one call keeps the statics valid: debounce in 1..200, count in 0..99, activity fits uint32; it returns the new count; the count moves by at most one; the input becomes lastReading |
| `Counter.IdleReading` | Firmware/CounterRGB/CounterRGB/CounterRGB.c:141-151 | an idle reading keeps the count, restarts the countdown and clears validCount; it calls displayOff (activity := 0) iff the count is 0 and validCount was set |
| `Counter.BounceRestarts` | Firmware/CounterRGB/CounterRGB/CounterRGB.c:153-194 | a non-idle reading that differs from the previous one restarts the countdown and changes nothing else |
| `Counter.FireRule` | Firmware/CounterRGB/CounterRGB/CounterRGB.c:155-186 | a completed debounce resets activity and the countdown; COUNT_UP decrements with a floor at 0, COUNT_DN increments with a ceiling at 99, and both set validCount; 0x00 changes nothing and leaves validCount clear; any other non-idle call leaves the count, validCount and activity alone |
| `Counter.NoAutoRepeat` | Firmware/CounterRGB/CounterRGB/CounterRGB.c:141-192 | while validCount is set, non-idle readings change neither the count nor activity; only an idle reading clears validCount |
| `Counter.RunStaysValid` | Firmware/CounterRGB/CounterRGB/CounterRGB.c:134-196 | for every input sequence, every returned count is in 0..99 and successive counts differ by at most one |
| `Counter.Hold` | Firmware/CounterRGB/CounterRGB/CounterRGB.c:155-185 | holding one button for n readings moves the count by exactly one press iff n > 200, however long it is held |
| `Counter.HoldStable` | Firmware/CounterRGB/CounterRGB/CounterRGB.c:153-185 | from the first reading of a newly pressed button, the press counts once exactly when at least 200 further equal readings follow, and never again while held |
| `Counter.HoldFires` | Firmware/CounterRGB/CounterRGB/CounterRGB.c:158-185 | the reading that brings the countdown to 0 applies the press and sets validCount; holding on afterwards keeps that result |
| `Counter.PressAndRelease` | Firmware/CounterRGB/CounterRGB/CounterRGB.c:141-185 | press then release: a press of more than 200 readings counts once and a shorter one not at all; the release calls displayOff iff a counted press left the count at 0 |
| `Counter.BothPressedNeverCounts` | Firmware/CounterRGB/CounterRGB/CounterRGB.c:158-185 | a both-pressed reading held for any time never changes the count and never sets validCount |
| `Counter.FireNeedsStableReadings` | Firmware/CounterRGB/CounterRGB/CounterRGB.c:136-163 | from power-on, over masked readings, a call that completes a debounce or changes the count ends a run of 201 equal readings (bounce rejection) |
| `MainLoop.Reading` | Firmware/CounterRGB/CounterRGB/CounterRGB.c:107 | the sampled input is one of 0x00, COUNT_DN, COUNT_UP, COUNT_MASK |
| `MainLoop.PowerThresholds` | Firmware/CounterRGB/CounterRGB/CounterRGB.c:111-125 | Off iff activity >= 300000; Dim iff 100000 <= activity < 300000; Normal otherwise; a larger activity count never gives a brighter state |
| `MainLoop.FrameDisplay` | Firmware/CounterRGB/CounterRGB/CounterRGB.c:111-125 | when off, the pass draws nothing and records no busy wait in the trace (the sleep and the 500 ms settle delay are left out); dimmed or normal, it shows the count in its colour for 500 µs or 100 µs; either way every cathode ends off |
| `MainLoop.IterationKeepsInvariant` | Firmware/CounterRGB/CounterRGB/CounterRGB.c:104-126 | from a loop head with activity < 300000, the increment never wraps; the next activity is count's activity + 1, or 0 when switched off; the next loop head again has activity < 300000 |
| `MainLoop.ActivityAfterPress` | Firmware/CounterRGB/CounterRGB/CounterRGB.c:109-124 | after a pass whose count call completed a debounce or called displayOff, activity is 1 and the display is at full brightness |
| `MainLoop.IterationDisplay` | Firmware/CounterRGB/CounterRGB/CounterRGB.c:104-126 | unless switched off, a pass shows the count's digits, green iff the count is 1, taking 100 µs (normal) or 500 µs (dim); when off, nothing is shown and no busy wait is recorded in the trace (the sleep and the 500 ms settle delay are left out); every pass ends with all cathodes off |
| `MainLoop.LoopInvariantAlways` | Firmware/CounterRGB/CounterRGB/CounterRGB.c:104-126 | for every sequence of port D readings, each loop head has the count in 0..99 and activity < 300000 |
| `Firmware.Controller.constructor` | Firmware/CounterRGB/CounterRGB/CounterRGB.c:136-139 | power-on values of the statics: debounce 200, lastReading 0xFF, count 0, validCount clear; activity 0; and main's port values from CounterRGB.c:91-94: PORTD = pull-ups (COUNT_MASK), PORTC = PORTB = 0 |
| `Firmware.Controller.DisplayOff` | Firmware/CounterRGB/CounterRGB/CounterRGB.c:299-302 | activity becomes 0 and every cathode bit of PORTD is cleared |
| `Firmware.Controller.Count` | Firmware/CounterRGB/CounterRGB/CounterRGB.c:134-196 | the in-place update of the statics and activity equals `CountStep`; PORTB/PORTC are untouched; PORTD loses its cathode bits iff displayOff was called |
| `Firmware.Controller.EnableDigit` | Firmware/CounterRGB/CounterRGB/CounterRGB.c:199-251 | PORTC/PORTB are overwritten with `DigitPorts` of their old values |
| `Firmware.Controller.ShowValue` | Firmware/CounterRGB/CounterRGB/CounterRGB.c:255-296 | the port writes and busy waits performed are the `ShowValue` trace, and the ports end as that trace leaves them |
| `Firmware.Controller.Refresh` | Firmware/CounterRGB/CounterRGB/CounterRGB.c:108-125 | colour, activity increment (mod 2^32), power choice, then either displayOff or showValue at intensity 0 or 1 |
| `Firmware.Controller.Iterate` | Firmware/CounterRGB/CounterRGB/CounterRGB.c:104-126 | one loop pass on the object equals `IterationStep`, and the ports end as its event trace leaves them |
| `Firmware.Controller.Finish` | Firmware/CounterRGB/CounterRGB/CounterRGB.c:108-125 | the loop body after count, on the object: the same state, power choice and event trace as `AfterCount` of count's result, where a displayOff inside count appears as a leading cathode clear |

## Left out

- Hardware initialisation in `main` is not modelled: DDR setup, MCUCR/GICR interrupt configuration and `set_sleep_mode`. These are register plumbing. The constructor keeps only the initial PORTB, PORTC and PORTD values.
- The two interrupt handlers are not modelled, and neither are `sei`, `sleep_enable`, `sleep_cpu`, `cli` or the 500 ms settle delay in `displayOff`. They only wake the processor; they compute nothing. `DisplayOff` models the state effect only: activity := 0 and the cathodes cleared.
- Busy waits are `Delay(us)` events in a trace. They are not real time.
- `F_CPU`, `PERIOD`, `QTR_SEC` and `_qtrSecondTimeout` are not modelled. They are unused or only calibrate the delay routines.
- `test()` is not modelled. It is a diagnostic routine built from real delays.
- The `BREADBOARD` pin map is not modelled; only the default board layout is.
- The endless `while(1)` becomes one pass (`IterationStep`, `Controller.Iterate`) plus properties over finite sequences of passes (`RunLoop`).
- `Display.ShowValue`: `val` is a C `char` and is modelled as `nat`. The only caller passes a count in 0..99. A negative `char` value is not modelled.
- `count`'s `input` and `lastReading` are modelled as 8-bit values. The initial 0xFF never equals a masked reading, so the signedness of `char` does not change any comparison the firmware makes.
- The hardware delivering a wake-up press while asleep is not modelled. Neither is the shared use of the activity counter across the interrupt boundary, because the handlers touch no state.
