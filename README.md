# Zumo 32U4 encoder demo: verified model of the control loop

The program is an Arduino sketch for a two-wheeled robot. Each call of `loop()`
does two jobs:

- **Telemetry**, rate-limited by a wrap-safe 8-bit millisecond timer. It reads the
  two encoder counts and error flags and keeps a per-side "!" countdown. It shows
  the counts on the two LCD lines and writes a `"%6d %6d %1d %1d"` line to the
  serial port.
- **Motor command**, on every call. Button A drives both motors forward at 400,
  otherwise button C drives both in reverse at -400, otherwise both stop.

The model has five modules, one per concern in `src/main.cpp`, and a small shared one:

- `Clock` (Clock.dfy): the `uint8_t` gate `(uint8_t)(millis() - lastDisplayTime) >= 100`.
  The 32-bit `unsigned long` subtraction and the truncation to 8 bits are both written
  out. The file proves that the gate measures the forward distance on an 8-bit dial,
  that it depends only on the low byte of the clock, and that it stays correct across
  wrap-arounds of either width.
- `ErrorIndicator` (ErrorIndicator.dfy): one side's countdown on one telemetry tick
  (`Tick`) and over a run of ticks (`Run`), with the glyph window it produces.
- `Motors` (Motors.dfy): the button priority as a pure function.
- `Options` (Options.dfy): the optional value shared by the parser and the loop.
- `Report` (Report.dfy): `%d`, right-justification, the four-field format and
  `snprintf`'s truncation into the 32-byte buffer. A parser is its inverse, and the
  round trip is proved.
- `ControlLoop` (ControlLoop.dfy): the globals as a `LoopState` class. Its `Step`
  method is one call of `loop()` and updates the fields in place. `Step` is proved
  equal to the specification function `Iterate`. `RunLoop` covers many calls.

Everything the sketch reads from its collaborators is an input of `Step`, in the order
the code reads it:

- two separate `millis()` readings: one in the gate (line 54) and one stored (line 56);
- the two counts;
- four separate error checks;
- the two buttons.

The code calls `checkErrorLeft()` and `checkErrorRight()` twice per tick. The first pair
(lines 61-62) goes into the serial report. The second pair (lines 64 and 71) drives the
countdowns. The model keeps them as four independent inputs.
`ControlLoop.ReportAndGlyphCanDisagree` shows the consequence: the report can say 1
while no "!" is shown.

Points a reader of `src/main.cpp` might expect otherwise:

- The error flags are read twice per tick, not once (lines 61-62 and 64, 71).
- `lastDisplayTime` receives the second clock reading (line 56), not the one the gate compared (line 54).
- Of the two clock values, only `lastDisplayTime` is 8 bits wide; `millis()` is a 32-bit `unsigned long`.
- An error sets the countdown to 10, and the same tick shows "!" and decrements it.
  So the glyph appears on the error tick and on the 9 quiet ticks after it: 10 ticks
  in all, not the error tick plus 10 more that the comment at line 66 ("for the next
  10 iterations") suggests. Between calls a countdown is at most 9,
  which gives the [0, 10] bound with room to spare.

## Model

| member | source | states |
|---|---|---|
| Clock.LowByte | src/main.cpp:56 | storing a 32-bit clock reading in the `uint8_t` keeps the reading minus a whole number of 256s |
| Clock.Elapsed | src/main.cpp:54 | the truncated difference is the 8-bit distance that carries `lastDisplayTime` to the low byte of the reading |
| Clock.Due | src/main.cpp:54 | telemetry runs exactly when the forward distance on the 8-bit dial from `lastDisplayTime` to the reading's low byte is at least 100 |
| Clock.WideningIsInvisible | src/main.cpp:54 | subtracting in 32-bit `unsigned long` and then truncating to 8 bits gives the same value as subtracting modulo 256 |
| Clock.ElapsedIsForwardDistance | src/main.cpp:54 | the gate's value equals the forward distance on an 8-bit dial from the last stamp to the reading's low byte, including when that low byte is smaller |
| Clock.ElapsedIsUnique | src/main.cpp:54 | in both directions, an 8-bit distance carries the stamp to the reading's low byte exactly when it is the gate's value |
| Clock.DueDependsOnlyOnLowByte | src/main.cpp:54 | two clock readings with the same low byte give the same elapsed value and the same firing decision |
| Clock.WrapSafe | src/main.cpp:54-56 | if the clock advanced by delta ms since a stamp, even across 32-bit and 8-bit wraps, the gate sees delta mod 256; for delta below 256 it fires exactly when delta >= 100 |
| Clock.WrapExamples | src/main.cpp:54 | with stamp 250, a reading with low byte 94 gives 100 and fires; low byte 10 gives 16 and does not |
| ErrorIndicator.Tick | src/main.cpp:64-98 | the glyph shows exactly when there is an error or the countdown is nonzero; an error leaves 9 whatever came before; otherwise the countdown drops by one if it was nonzero and never underflows |
| ErrorIndicator.Run | src/main.cpp:64-98 | one glyph flag per telemetry tick of a side |
| ErrorIndicator.TickBounded | src/main.cpp:84-98 | a countdown of at most 10 is at most 9 after a tick, and does not grow without an error |
| ErrorIndicator.RunBounded | src/main.cpp:38-39 | from 0, or from anything up to 10, a countdown stays within [0, 10] for any error sequence, and below 10 after a tick |
| ErrorIndicator.QuietDrain | src/main.cpp:84-98 | with no errors, a countdown c shows the glyph on exactly the first c ticks and ends at max(c - ticks, 0) |
| ErrorIndicator.ErrorWindow | src/main.cpp:64-90 | after an error followed by quiet ticks, the glyph is shown on exactly the error tick and the next 9, then never until a new error, whatever the prior countdown |
| ErrorIndicator.ErrorForgetsPast | src/main.cpp:64-76 | an error overwrites the countdown, so sides with different countdowns behave identically from an error tick on |
| Motors.Command | src/main.cpp:108-116 | the command is the same on both sides, within the +-400 range, and one of -400, 0 or 400 |
| Motors.CommandCases | src/main.cpp:108-116 | forward iff A is pressed; reverse iff C is pressed without A; stop iff neither is |
| Motors.APriority | src/main.cpp:108-112 | with A pressed the command is forward whatever C does, never reverse |
| Report.Digits | src/main.cpp:102-103 | the decimal digits of a count: nonempty, all digits, no leading zero |
| Report.Decimal | src/main.cpp:102-103 | `%d` text is nonempty, never starts with a space, and starts with '-' exactly for negatives |
| Report.Padded | src/main.cpp:102 | a right-justified field is as wide as the larger of the text and the field width |
| Report.PaddedShape | src/main.cpp:102 | a right-justified field is spaces followed by the unpadded text |
| Report.Field | src/main.cpp:102 | a `%Nd` field is as wide as the larger of the `%d` text and N |
| Report.ReportLine | src/main.cpp:101-103 | for any `int16_t` counts and flags the line is exactly 17 characters: 6 + 1 + 6 + 1 + 1 + 1 + 1 |
| Report.FlagValue | src/main.cpp:103 | a `bool` argument of `%1d` is promoted to 0 or 1 |
| Report.FlagField | src/main.cpp:102-103 | `%1d` of a flag is the single character '1' or '0' |
| Report.Snprintf | src/main.cpp:101-102 | the stored text is a prefix of the formatted text and shorter than the buffer; it is the whole text exactly when the text fits, and otherwise exactly `size - 1` characters |
| Report.DigitsFit | src/main.cpp:102 | a number below 10^k has at most k digits |
| Report.DecimalInt16Fits | src/main.cpp:102-103 | every `int16_t` count prints in at most 6 characters, sign included |
| Report.ReportFitsBuffer | src/main.cpp:101-103 | `snprintf` into the 32-byte buffer never truncates the report |
| Report.ReportExample | src/main.cpp:102-103 | -5, 1234, true, false format as `"    -5   1234 1 0"` |
| Report.ExampleFields | src/main.cpp:102-103 | the fields of the worked example: `"    -5"`, `"  1234"`, `"1"`, `"0"` |
| Report.ParseDigitsRoundTrip | src/main.cpp:102 | reading back the digits of n gives n |
| Report.ParseDecimalRoundTrip | src/main.cpp:102 | reading back `%d` text of n gives n, negatives included |
| Report.ParseFieldRoundTrip | src/main.cpp:102 | trimming and reading back a right-justified `%Nd` field gives its number |
| Report.ReportLayout | src/main.cpp:102-103 | in the line, the left count fills columns 0-5, the right count 7-12, the flags columns 14 and 16, and spaces separate them |
| Report.ReportRoundTrip | src/main.cpp:102-103 | the report line of any counts and flags parses back to exactly those values, so distinct inputs give distinct lines |
| ControlLoop.LoopState.constructor | src/main.cpp:37-39 | the globals start at zero |
| ControlLoop.LoopState.Step | src/main.cpp:52-117 | updating the fields in place gives exactly the new globals and output of `Iterate`, and keeps both countdowns below 10 |
| ControlLoop.Iterate | src/main.cpp:52-117 | every call issues the button command; telemetry runs exactly when the gate is due, and then the stamp becomes the low byte of the second reading; otherwise no global changes |
| ControlLoop.CommandEveryIteration | src/main.cpp:108-116 | every call issues the button command, whatever the globals and whether or not telemetry ran |
| ControlLoop.SideFollowsIndicator | src/main.cpp:64-98 | on a telemetry tick each side's glyph and new countdown are `Tick` of that side's own countdown and its own second error check |
| ControlLoop.SidesIndependent | src/main.cpp:64-98 | a side's glyph and new countdown do not depend on the other side's countdown or error checks |
| ControlLoop.ErrorOverwrites | src/main.cpp:64-76 | a side's second error check sets its countdown to 10 whatever it was; the same tick shows the glyph and leaves 9 |
| ControlLoop.ReportOfTick | src/main.cpp:58-105 | the serial line carries the counts and the first pair of error reads, is 17 characters, and parses back to them |
| ControlLoop.ReportAndGlyphCanDisagree | src/main.cpp:61-71 | because the flags are read twice, a side can report error 1 while its glyph stays off |
| ControlLoop.IterateBounded | src/main.cpp:84-98 | one call keeps both countdowns below 10 |
| ControlLoop.RunLoop | src/main.cpp:52-117 | a run of calls yields one output per call |
| ControlLoop.CountdownsStayBounded | src/main.cpp:84-98 | from bounded globals, any sequence of calls keeps both countdowns below 10 |
| ControlLoop.InitBounded | src/main.cpp:37-39 | from start-up, both countdowns stay within [0, 10] forever, whatever the inputs |
| ControlLoop.LoopDrivesIndicator | src/main.cpp:54-98 | over any run, a side's glyphs on telemetry ticks and its final countdown are `ErrorIndicator.Run` of that side's second error checks on those ticks; calls without telemetry leave it alone |

## Left out

- The LCD driver calls (`lcd.init`, `clear`, `print`, `gotoXY`) are output plumbing. The model keeps what they show: the two counts and a "glyph at column 7" flag per line.
- `Serial.println` is left out. The model ends at the text handed to it, so the line terminator is not modelled.
- The encoder driver is foreign code. This covers the counters and the clear-on-read behaviour inside `checkErrorLeft`/`checkErrorRight`. The counts and the four check results are inputs.
- `millis()` is the clock source. Its two readings per call are inputs.
- The button drivers' debouncing is left out. The two button states are inputs.
- `setup()` is left out: `lcd.init()` and the commented-out `flipLeftMotor`/`flipRightMotor`. It is hardware configuration only.
- The motors' PWM generation is left out. The model ends at the `setSpeeds` arguments.
- The buzzer beep mentioned in comments is absent from the code, so it is not modelled.
- ErrorIndicator.Run: its own contract states only that there is one glyph flag per tick. What the flags are is stated by QuietDrain, ErrorWindow and RunBounded.
- ControlLoop.RunLoop: its own contract states only the output count. What a run does is stated by CountdownsStayBounded and LoopDrivesIndicator.
