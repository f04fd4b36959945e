/**
 * The per-side error-indicator countdown of src/main.cpp (lines 38-39,
 * 64-98). On every telemetry tick a side's countdown is first overwritten
 * with 10 when that side's error check reports an error, and then, if it
 * is nonzero, the "!" glyph is shown on that side's LCD line and the
 * countdown is decremented. The counter is a `uint8_t`; it is decremented
 * only when nonzero, so it never wraps.
 */
module ErrorIndicator {
  import opened Clock

  /** The value an error writes into a countdown (lines 68 and 75). */
  const ErrorDisplayTicks: Byte := 10

  /** What one telemetry tick does to one side: glyph shown, countdown after. */
  datatype SideTick = SideTick(shown: bool, next: Byte)

  /**
   * One side on one telemetry tick. The countdown is set to 10 on an
   * error (overwritten, not accumulated) and then drained by one while
   * the glyph is shown, so the glyph appears on the error tick itself.
   */
  function Tick(countdown: Byte, error: bool): (t: SideTick)
    ensures t.shown <==> error || countdown != 0
    ensures error ==> t.next == ErrorDisplayTicks - 1
    ensures !error ==> t.next + (if t.shown then 1 else 0) == countdown
  {
    var armed := if error then ErrorDisplayTicks else countdown;
    if armed != 0 then SideTick(true, armed - 1) else SideTick(false, armed)
  }

  /** What a run of telemetry ticks shows on one side, and where it ends. */
  datatype Trace = Trace(shown: seq<bool>, final: Byte)

  /** One side over successive telemetry ticks with the given error checks. */
  function Run(countdown: Byte, errors: seq<bool>): (tr: Trace)
    ensures |tr.shown| == |errors|
    decreases |errors|
  {
    if errors == [] then Trace([], countdown)
    else
      var t := Tick(countdown, errors[0]);
      var rest := Run(t.next, errors[1..]);
      Trace([t.shown] + rest.shown, rest.final)
  }

  /** Whether no error check in `errors` reported an error. */
  predicate Quiet(errors: seq<bool>)
  {
    forall k :: 0 <= k < |errors| ==> !errors[k]
  }

  /**
   * A countdown of at most 10 stays at most 9 after any tick: the `--`
   * never underflows and an error never pushes it past 10.
   */
  lemma TickBounded(countdown: Byte, error: bool)
    requires countdown <= ErrorDisplayTicks
    ensures Tick(countdown, error).next < ErrorDisplayTicks
    ensures Tick(countdown, error).next <= countdown || error
  {
  }

  /**
   * Started from its initial value 0 (or anything up to 10), a countdown
   * stays within [0, 10] whatever errors are reported, and is below 10
   * between ticks once at least one tick has run.
   */
  lemma {:induction false} RunBounded(countdown: Byte, errors: seq<bool>)
    requires countdown <= ErrorDisplayTicks
    ensures Run(countdown, errors).final <= ErrorDisplayTicks
    ensures errors != [] ==> Run(countdown, errors).final < ErrorDisplayTicks
    decreases |errors|
  {
    if errors != [] {
      TickBounded(countdown, errors[0]);
      RunBounded(Tick(countdown, errors[0]).next, errors[1..]);
    }
  }

  /**
   * With no error, a countdown of `c` shows the glyph on exactly the next
   * `c` ticks and never after that; it ends at `c` minus the number of
   * ticks, or 0.
   */
  lemma {:induction false} QuietDrain(countdown: Byte, errors: seq<bool>)
    requires Quiet(errors)
    ensures forall k :: 0 <= k < |errors| ==> (Run(countdown, errors).shown[k] <==> k < countdown)
    ensures Run(countdown, errors).final == if countdown <= |errors| then 0 else countdown - |errors|
    decreases |errors|
  {
    if errors != [] {
      var t := Tick(countdown, errors[0]);
      assert Quiet(errors[1..]) by {
        forall k | 0 <= k < |errors[1..]| ensures !errors[1..][k] {
          assert errors[1..][k] == errors[k + 1];
        }
      }
      QuietDrain(t.next, errors[1..]);
      var tr := Run(countdown, errors);
      forall k | 0 <= k < |errors| ensures tr.shown[k] <==> k < countdown {
        if k > 0 {
          assert tr.shown[k] == Run(t.next, errors[1..]).shown[k - 1];
        }
      }
    }
  }

  /**
   * After an error, the glyph is shown on the error tick and on each of
   * the next 9 ticks that report no further error: 10 ticks in all. It is
   * absent on every later tick until a new error. This holds whatever the
   * countdown was before the error.
   */
  lemma {:induction false} ErrorWindow(countdown: Byte, errors: seq<bool>)
    requires errors != [] && errors[0]
    requires Quiet(errors[1..])
    ensures forall k :: 0 <= k < |errors| ==> (Run(countdown, errors).shown[k] <==> k < ErrorDisplayTicks)
    ensures Run(countdown, errors).final ==
              if |errors| >= ErrorDisplayTicks then 0 else ErrorDisplayTicks - |errors|
  {
    var t := Tick(countdown, errors[0]);
    QuietDrain(t.next, errors[1..]);
    var tr := Run(countdown, errors);
    forall k | 0 <= k < |errors| ensures tr.shown[k] <==> k < ErrorDisplayTicks {
      if k > 0 {
        assert tr.shown[k] == Run(t.next, errors[1..]).shown[k - 1];
      }
    }
  }

  /**
   * An error overwrites the countdown: two sides whose countdowns differ
   * behave identically from an error tick on.
   */
  lemma {:induction false} ErrorForgetsPast(c1: Byte, c2: Byte, errors: seq<bool>)
    requires errors != [] && errors[0]
    ensures Run(c1, errors) == Run(c2, errors)
  {
    assert Tick(c1, errors[0]) == Tick(c2, errors[0]);
  }
}
