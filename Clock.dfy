/**
 * The wrap-safe telemetry timer of the loop in src/main.cpp.
 *
 * `millis()` returns an `unsigned long` (32 bits on the AVR target), and
 * `lastDisplayTime` is a `uint8_t`. The gate
 * `(uint8_t)(millis() - lastDisplayTime) >= 100` promotes both operands to
 * `unsigned long`, subtracts modulo 2^32 and keeps the low 8 bits of the
 * difference. Both wrap-arounds are written out here.
 */
module Clock {

  /** Modulus of the 32-bit `unsigned long` returned by `millis()`. */
  const MillisModulus: int := 0x1_0000_0000

  /** Modulus of a `uint8_t`. */
  const ByteModulus: int := 256

  /** A reading of the millisecond clock. */
  type Millis = t: int | 0 <= t < 0x1_0000_0000

  /** An 8-bit unsigned value, as stored in the loop's globals. */
  type Byte = b: int | 0 <= b < 256

  /** Telemetry runs once this many milliseconds (modulo 256) have elapsed. */
  const TelemetryPeriod: Byte := 100

  /** What an assignment of a clock reading to a `uint8_t` keeps. */
  function LowByte(t: Millis): (b: Byte)
    ensures exists k: nat :: t == k * ByteModulus + b
  {
    var k: nat := t / ByteModulus;
    assert t == k * ByteModulus + t % ByteModulus;
    t % ByteModulus
  }

  /**
   * `(uint8_t)(now - last)`: subtraction in `unsigned long`, then
   * truncation to 8 bits. The result is the number of steps from `last`
   * forward to the low byte of `now` on an 8-bit dial.
   */
  function Elapsed(now: Millis, last: Byte): (d: Byte)
    ensures (last + d) % ByteModulus == LowByte(now)
  {
    var diff := (now - last) % MillisModulus;
    assert diff == if now >= last then now - last else now - last + MillisModulus;
    WideningIsInvisible(now - last);
    diff % ByteModulus
  }

  /**
   * Whether the telemetry job runs on this iteration (line 54): the
   * forward distance on the 8-bit dial has reached 100.
   */
  predicate Due(now: Millis, last: Byte)
    ensures Due(now, last) <==> ForwardDistance(LowByte(now), last) >= TelemetryPeriod
  {
    Elapsed(now, last) >= TelemetryPeriod
  }

  /**
   * Reference definition of the elapsed time: the forward distance from
   * `last` to `now`'s low byte, by case analysis instead of modular
   * arithmetic.
   */
  function ForwardDistance(to: Byte, from: Byte): (d: Byte)
  {
    if to >= from then to - from else to + ByteModulus - from
  }

  /** Adding a multiple of 2^32 does not change the low 8 bits. */
  lemma WideningIsInvisible(x: int)
    ensures (x % MillisModulus) % ByteModulus == x % ByteModulus
  {
  }

  /** Adding `k` whole turns of the 8-bit dial does not change a residue. */
  lemma ShiftByMultiple(r: int, k: int)
    ensures (r + k * ByteModulus) % ByteModulus == r % ByteModulus
  {
    var a := r / ByteModulus;
    var b := r % ByteModulus;
    assert r + k * ByteModulus == (a + k) * ByteModulus + b;
  }

  /**
   * The gate computes the forward distance on the 8-bit dial: it depends
   * on `now` only through its low byte, including when that low byte is
   * numerically smaller than `last` (the clock wrapped in between).
   */
  lemma ElapsedIsForwardDistance(now: Millis, last: Byte)
    ensures Elapsed(now, last) == ForwardDistance(LowByte(now), last)
  {
  }

  /**
   * The elapsed value is the only 8-bit distance that carries `last` to
   * the low byte of `now`: it is the inverse of adding modulo 256.
   */
  lemma ElapsedIsUnique(now: Millis, last: Byte, d: Byte)
    ensures (last + d) % ByteModulus == LowByte(now) <==> d == Elapsed(now, last)
  {
  }

  /** Two readings with the same low byte open the gate alike. */
  lemma DueDependsOnlyOnLowByte(now1: Millis, now2: Millis, last: Byte)
    requires LowByte(now1) == LowByte(now2)
    ensures Due(now1, last) <==> Due(now2, last)
    ensures Elapsed(now1, last) == Elapsed(now2, last)
  {
    ElapsedIsForwardDistance(now1, last);
    ElapsedIsForwardDistance(now2, last);
  }

  /**
   * Wrap safety: if `last` holds the low byte of an earlier reading `t0`
   * and the clock has since advanced by `delta` milliseconds (wrapping at
   * 2^32 as `millis()` does), the gate sees `delta` modulo 256, whatever
   * wrap-arounds of either width happened in between. For delta below 256
   * it opens exactly when delta >= 100; beyond that only delta mod 256
   * counts (delta = 300 gives 44 and the gate stays shut).
   */
  lemma WrapSafe(t0: Millis, delta: nat, now: Millis)
    requires now == (t0 + delta) % MillisModulus
    ensures Elapsed(now, LowByte(t0)) == delta % ByteModulus
    ensures delta < ByteModulus ==> (Due(now, LowByte(t0)) <==> delta >= TelemetryPeriod)
  {
    var last := LowByte(t0);
    WideningIsInvisible(t0 + delta);
    assert LowByte(now) == (t0 + delta) % ByteModulus;
    var q := t0 / ByteModulus;
    assert t0 == q * ByteModulus + last;
    ShiftByMultiple(last + delta, q);
    assert (last + delta % ByteModulus) % ByteModulus == (last + delta) % ByteModulus by {
      ShiftByMultiple(last + delta % ByteModulus, delta / ByteModulus);
    }
    ElapsedIsUnique(now, last, delta % ByteModulus);
  }

  /**
   * The two wrap-around cases: with `last` = 250, a reading whose low
   * byte is 94 is 100 ms later and opens the gate; one whose low byte is
   * 10 is only 16 ms later and does not.
   */
  lemma WrapExamples()
    ensures Elapsed(94, 250) == 100 && Due(94, 250)
    ensures Elapsed(350, 250) == 100 && Due(350, 250)
    ensures Elapsed(10, 250) == 16 && !Due(10, 250)
    ensures Elapsed(266, 250) == 16 && !Due(266, 250)
  {
  }
}
