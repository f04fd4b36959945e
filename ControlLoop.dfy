/**
 * The sampling and control loop of src/main.cpp: the globals at lines
 * 37-39 and one call of `loop()` (lines 52-117).
 *
 * `Iterate` is the specification of one call as a function of the old
 * globals and of everything the call reads from outside; `LoopState.Step`
 * is the call itself, updating the globals in place, and is proved to
 * agree with `Iterate`. The lemmas state what the loop promises over one
 * and over many calls.
 *
 * The outside world enters as inputs, in the order the code reads it:
 * two `millis()` readings (lines 54 and 56), the two encoder counts, four
 * separate encoder error checks (lines 61, 62, 64 and 71: the report uses
 * the first pair, the countdowns the second) and the two buttons.
 */
module ControlLoop {
  import opened Options
  import opened Clock
  import opened ErrorIndicator
  import opened Motors
  import opened Report

  /** The loop's globals: `lastDisplayTime` and the two countdowns. */
  datatype State = State(lastDisplayTime: Byte, leftCountdown: Byte, rightCountdown: Byte)
  {
    /** Between calls neither countdown exceeds 9 (so both lie in [0, 10]). */
    predicate Bounded()
    {
      leftCountdown < ErrorDisplayTicks && rightCountdown < ErrorDisplayTicks
    }
  }

  /** The globals at start-up: all zero. */
  const Init: State := State(0, 0, 0)

  /** Everything one call of `loop()` reads from its collaborators. */
  datatype Inputs = Inputs(
    gateTime: Millis,             // millis() in the gate, line 54
    stampTime: Millis,            // millis() stored, line 56
    countsLeft: Int16,            // line 58
    countsRight: Int16,           // line 59
    reportErrorLeft: bool,        // checkErrorLeft(), line 61
    reportErrorRight: bool,       // checkErrorRight(), line 62
    countdownErrorLeft: bool,     // checkErrorLeft(), line 64
    countdownErrorRight: bool,    // checkErrorRight(), line 71
    buttonA: bool,                // line 108
    buttonC: bool)                // line 111

  /**
   * What the telemetry job puts out: the counts printed on the two LCD
   * lines, whether "!" is printed at column 7 of each, and the text
   * handed to `Serial.println`.
   */
  datatype Telemetry = Telemetry(
    countsLeft: Int16, countsRight: Int16,
    glyphLeft: bool, glyphRight: bool,
    report: string)

  /** What one call does outside: telemetry if it ran, and the motor command. */
  datatype Output = Output(telemetry: Option<Telemetry>, command: MotorCommand)

  datatype Side = Left | Right

  function Countdown(s: State, side: Side): Byte
  {
    match side
    case Left => s.leftCountdown
    case Right => s.rightCountdown
  }

  /** The error check that drives a side's countdown (line 64 or 71). */
  function CountdownError(i: Inputs, side: Side): bool
  {
    match side
    case Left => i.countdownErrorLeft
    case Right => i.countdownErrorRight
  }

  function Glyph(t: Telemetry, side: Side): bool
  {
    match side
    case Left => t.glyphLeft
    case Right => t.glyphRight
  }

  /**
   * One call of `loop()`: the new globals and what it puts out. The motor
   * command is issued on every call. Telemetry runs exactly when the 8-bit
   * elapsed time reaches 100; then `lastDisplayTime` becomes the low byte
   * of the second clock reading, and otherwise no global changes.
   */
  function Iterate(s: State, i: Inputs): (r: (State, Output))
    ensures r.1.command == Command(i.buttonA, i.buttonC)
    ensures r.1.telemetry.Some? <==> Due(i.gateTime, s.lastDisplayTime)
    ensures r.1.telemetry.Some? ==> r.0.lastDisplayTime == LowByte(i.stampTime)
    ensures r.1.telemetry.None? ==> r.0 == s
  {
    var command := Command(i.buttonA, i.buttonC);
    if Due(i.gateTime, s.lastDisplayTime) then
      var left := Tick(s.leftCountdown, i.countdownErrorLeft);
      var right := Tick(s.rightCountdown, i.countdownErrorRight);
      var line := ReportLine(i.countsLeft, i.countsRight, i.reportErrorLeft, i.reportErrorRight);
      var report := Snprintf(line, ReportBufferSize);
      (State(LowByte(i.stampTime), left.next, right.next),
       Output(Some(Telemetry(i.countsLeft, i.countsRight, left.shown, right.shown, report)), command))
    else
      (s, Output(None, command))
  }

  /** The globals as the source keeps them, updated in place by `Step`. */
  class LoopState {
    var lastDisplayTime: Byte
    var displayErrorLeftCountdown: Byte
    var displayErrorRightCountdown: Byte

    function Snapshot(): State
      reads this
    {
      State(lastDisplayTime, displayErrorLeftCountdown, displayErrorRightCountdown)
    }

    constructor ()
      ensures Snapshot() == Init
    {
      lastDisplayTime := 0;
      displayErrorLeftCountdown := 0;
      displayErrorRightCountdown := 0;
    }

    /** One call of `loop()`. */
    method Step(i: Inputs) returns (out: Output)
      modifies this
      ensures (Snapshot(), out) == Iterate(old(Snapshot()), i)
      ensures old(Snapshot()).Bounded() ==> Snapshot().Bounded()
    {
      ghost var expected := Iterate(Snapshot(), i);
      var telemetry: Option<Telemetry> := None;
      if Elapsed(i.gateTime, lastDisplayTime) >= TelemetryPeriod {
        lastDisplayTime := LowByte(i.stampTime);

        var errorLeft := i.reportErrorLeft;
        var errorRight := i.reportErrorRight;

        if i.countdownErrorLeft {
          displayErrorLeftCountdown := ErrorDisplayTicks;
        }
        if i.countdownErrorRight {
          displayErrorRightCountdown := ErrorDisplayTicks;
        }

        var glyphLeft := false;
        if displayErrorLeftCountdown != 0 {
          glyphLeft := true;
          displayErrorLeftCountdown := displayErrorLeftCountdown - 1;
        }
        var glyphRight := false;
        if displayErrorRightCountdown != 0 {
          glyphRight := true;
          displayErrorRightCountdown := displayErrorRightCountdown - 1;
        }

        var report := Snprintf(ReportLine(i.countsLeft, i.countsRight, errorLeft, errorRight), ReportBufferSize);
        telemetry := Some(Telemetry(i.countsLeft, i.countsRight, glyphLeft, glyphRight, report));
      }
      out := Output(telemetry, Command(i.buttonA, i.buttonC));
      assert out == expected.1;
    }
  }

  // ---------------------------------------------------------------------
  // One call.

  /**
   * The motor command is issued on every call and depends on the buttons
   * alone: not on the globals and not on whether telemetry ran.
   */
  lemma CommandEveryIteration(s: State, i: Inputs)
    ensures Iterate(s, i).1.command == Command(i.buttonA, i.buttonC)
    ensures Iterate(s, i).1.command == Forward <==> i.buttonA
    ensures Iterate(s, i).1.command == Stop <==> !i.buttonA && !i.buttonC
  {
    CommandCases(i.buttonA, i.buttonC);
  }

  /**
   * On a telemetry tick each side's countdown and glyph follow
   * `ErrorIndicator.Tick` on that side's own countdown and its own second
   * error check: the other side, the counts and the report's error reads
   * play no part.
   */
  lemma SideFollowsIndicator(s: State, i: Inputs, side: Side)
    requires Due(i.gateTime, s.lastDisplayTime)
    ensures var (s', out) := Iterate(s, i);
      var t := Tick(Countdown(s, side), CountdownError(i, side));
      out.telemetry.Some? && Glyph(out.telemetry.value, side) == t.shown && Countdown(s', side) == t.next
  {
  }

  /**
   * Independence: two calls that agree on the gate, on one side's
   * countdown and on that side's error check leave that side in the same
   * state and show the same glyph on it, whatever the other side does.
   */
  lemma {:induction false} SidesIndependent(s1: State, i1: Inputs, s2: State, i2: Inputs, side: Side)
    requires Due(i1.gateTime, s1.lastDisplayTime) && Due(i2.gateTime, s2.lastDisplayTime)
    requires Countdown(s1, side) == Countdown(s2, side)
    requires CountdownError(i1, side) == CountdownError(i2, side)
    ensures Countdown(Iterate(s1, i1).0, side) == Countdown(Iterate(s2, i2).0, side)
    ensures Glyph(Iterate(s1, i1).1.telemetry.value, side) == Glyph(Iterate(s2, i2).1.telemetry.value, side)
  {
    SideFollowsIndicator(s1, i1, side);
    SideFollowsIndicator(s2, i2, side);
  }

  /**
   * An error seen by a side's second check sets its countdown to 10
   * whatever it held before; the same tick shows the glyph and leaves 9.
   */
  lemma ErrorOverwrites(s: State, i: Inputs, side: Side)
    requires Due(i.gateTime, s.lastDisplayTime) && CountdownError(i, side)
    ensures Countdown(Iterate(s, i).0, side) == ErrorDisplayTicks - 1
    ensures Glyph(Iterate(s, i).1.telemetry.value, side)
  {
    SideFollowsIndicator(s, i, side);
  }

  /**
   * The serial line carries the counts and the FIRST pair of error reads,
   * exactly 17 characters, never truncated, and reads back to them.
   */
  lemma {:induction false} ReportOfTick(s: State, i: Inputs)
    requires Due(i.gateTime, s.lastDisplayTime)
    ensures var report := Iterate(s, i).1.telemetry.value.report;
      && report == ReportLine(i.countsLeft, i.countsRight, i.reportErrorLeft, i.reportErrorRight)
      && |report| == 17
      && ParseReport(report) == Some(ReportFields(i.countsLeft, i.countsRight, i.reportErrorLeft, i.reportErrorRight))
  {
    ReportFitsBuffer(i.countsLeft, i.countsRight, i.reportErrorLeft, i.reportErrorRight);
    ReportRoundTrip(i.countsLeft, i.countsRight, i.reportErrorLeft, i.reportErrorRight);
  }

  /**
   * Because the flags are read twice, the report and the glyph can
   * disagree: an error seen only by the first read of a side is reported
   * as 1 while, from a zero countdown, no "!" appears on that side.
   */
  lemma ReportAndGlyphCanDisagree(s: State, i: Inputs, side: Side)
    requires Due(i.gateTime, s.lastDisplayTime)
    requires Countdown(s, side) == 0 && !CountdownError(i, side)
    requires if side == Left then i.reportErrorLeft else i.reportErrorRight
    ensures var t := Iterate(s, i).1.telemetry.value;
      && ParseReport(t.report).Some?
      && (var fields := ParseReport(t.report).value;
          if side == Left then fields.errorLeft else fields.errorRight)
      && !Glyph(t, side)
  {
    ReportOfTick(s, i);
    SideFollowsIndicator(s, i, side);
  }

  /** A call keeps both countdowns below 10. */
  lemma IterateBounded(s: State, i: Inputs)
    requires s.Bounded()
    ensures Iterate(s, i).0.Bounded()
  {
    if Due(i.gateTime, s.lastDisplayTime) {
      TickBounded(s.leftCountdown, i.countdownErrorLeft);
      TickBounded(s.rightCountdown, i.countdownErrorRight);
    }
  }

  // ---------------------------------------------------------------------
  // Many calls.

  /** Successive calls of `loop()`: the final globals and every call's output. */
  function RunLoop(s: State, inputs: seq<Inputs>): (r: (State, seq<Output>))
    ensures |r.1| == |inputs|
    decreases |inputs|
  {
    if inputs == [] then (s, [])
    else
      var (s', out) := Iterate(s, inputs[0]);
      var (final, outs) := RunLoop(s', inputs[1..]);
      (final, [out] + outs)
  }

  /**
   * From start-up, whatever the clock, encoders and buttons do, both
   * countdowns stay within [0, 10] forever (in fact below 10 between calls).
   */
  lemma {:induction false} CountdownsStayBounded(s: State, inputs: seq<Inputs>)
    requires s.Bounded()
    ensures RunLoop(s, inputs).0.Bounded()
    decreases |inputs|
  {
    if inputs != [] {
      IterateBounded(s, inputs[0]);
      CountdownsStayBounded(Iterate(s, inputs[0]).0, inputs[1..]);
    }
  }

  lemma InitBounded()
    ensures Init.Bounded()
    ensures forall inputs: seq<Inputs> {:trigger RunLoop(Init, inputs)} ::
      RunLoop(Init, inputs).0.leftCountdown <= ErrorDisplayTicks
      && RunLoop(Init, inputs).0.rightCountdown <= ErrorDisplayTicks
  {
    forall inputs: seq<Inputs> {
      CountdownsStayBounded(Init, inputs);
    }
  }

  /** The second error checks of the calls that ran telemetry, for one side. */
  function TickErrors(inputs: seq<Inputs>, outs: seq<Output>, side: Side): seq<bool>
    requires |inputs| == |outs|
    decreases |inputs|
  {
    if inputs == [] then []
    else
      var rest := TickErrors(inputs[1..], outs[1..], side);
      if outs[0].telemetry.Some? then [CountdownError(inputs[0], side)] + rest else rest
  }

  /** Whether "!" was shown on one side, for the calls that ran telemetry. */
  function TickGlyphs(outs: seq<Output>, side: Side): seq<bool>
    decreases |outs|
  {
    if outs == [] then []
    else
      var rest := TickGlyphs(outs[1..], side);
      if outs[0].telemetry.Some? then [Glyph(outs[0].telemetry.value, side)] + rest else rest
  }

  /**
   * Over any run of the loop, a side's glyphs on the telemetry ticks and
   * its final countdown are exactly what `ErrorIndicator.Run` gives for
   * that side's second error checks on those ticks. Calls that skip
   * telemetry do not touch the countdown. So `ErrorWindow` and
   * `QuietDrain` describe what the display shows.
   */
  lemma {:induction false} LoopDrivesIndicator(s: State, inputs: seq<Inputs>, side: Side)
    ensures var (final, outs) := RunLoop(s, inputs);
      ErrorIndicator.Run(Countdown(s, side), TickErrors(inputs, outs, side))
        == Trace(TickGlyphs(outs, side), Countdown(final, side))
    decreases |inputs|
  {
    if inputs != [] {
      var (s', out) := Iterate(s, inputs[0]);
      var (final, outs) := RunLoop(s, inputs);
      var (final', outs') := RunLoop(s', inputs[1..]);
      assert outs == [out] + outs' && final == final';
      assert outs[1..] == outs';
      LoopDrivesIndicator(s', inputs[1..], side);
      if out.telemetry.Some? {
        SideFollowsIndicator(s, inputs[0], side);
      }
    }
  }
}
