/**
 * The button-to-motor policy at the end of `loop()` in src/main.cpp
 * (lines 108-116): button A drives both motors forward at full speed,
 * otherwise button C drives both in reverse, otherwise both stop. It runs
 * on every iteration, whether or not telemetry ran.
 */
module Motors {

  /** The largest speed magnitude `setSpeeds` accepts. */
  const MaxSpeed: int := 400

  /** The arguments of one `motors.setSpeeds(left, right)` call. */
  datatype MotorCommand = MotorCommand(left: int, right: int)

  const Forward: MotorCommand := MotorCommand(MaxSpeed, MaxSpeed)
  const Reverse: MotorCommand := MotorCommand(-MaxSpeed, -MaxSpeed)
  const Stop: MotorCommand := MotorCommand(0, 0)

  /** Whether a command is one `setSpeeds` accepts: each side within +-400. */
  predicate InRange(cmd: MotorCommand)
  {
    -MaxSpeed <= cmd.left <= MaxSpeed && -MaxSpeed <= cmd.right <= MaxSpeed
  }

  /** The command issued for the current button states (else-if order). */
  function Command(buttonA: bool, buttonC: bool): (cmd: MotorCommand)
    ensures InRange(cmd) && cmd.left == cmd.right
    ensures cmd.left in {-MaxSpeed, 0, MaxSpeed}
  {
    if buttonA then Forward
    else if buttonC then Reverse
    else Stop
  }

  /**
   * The policy, one outcome at a time and in both directions: forward
   * exactly when A is pressed, reverse exactly when C alone is pressed,
   * stop exactly when neither is.
   */
  lemma CommandCases(buttonA: bool, buttonC: bool)
    ensures Command(buttonA, buttonC) == Forward <==> buttonA
    ensures Command(buttonA, buttonC) == Reverse <==> !buttonA && buttonC
    ensures Command(buttonA, buttonC) == Stop <==> !buttonA && !buttonC
  {
  }

  /**
   * With both buttons pressed the A command wins outright: never the
   * reverse command and never a blend of the two.
   */
  lemma APriority(buttonC: bool)
    ensures Command(true, buttonC) == Forward
    ensures Command(true, true) != Reverse
  {
  }
}
