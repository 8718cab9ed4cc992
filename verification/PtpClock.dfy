/**
 Adjusting the PTP hardware clock: small steps go through a sign-and-magnitude correction register,
 large ones read the clock, add, and write it back through 32-bit registers.
 */
module PtpClock {
  import opened MachineWords

  /** What the hardware clock holds. */
  datatype Time = Time(seconds: Word64, nanoseconds: Word32)

  function Total(t: Time): int {
    t.seconds as int * NSEC + t.nanoseconds as int
  }

  // ------------------------------------------------------------------------------------------
  // The correction register
  // ------------------------------------------------------------------------------------------

  /** Negation in 64 bits; the least number has no negative. */
  function Magnitude(delta: Int64): Int64 {
    if delta < 0 && delta > -TWO_63 then -delta else delta
  }

  function Sign(delta: Int64): int {
    if delta < 0 then -1 else 1
  }

  /** Sign in bit 31, magnitude in the bits below.  The magnitude is at most 10^9, or has no bit in
      the lower word. */
  function Correction(delta: Int64): Word32
    requires Magnitude(delta) <= NSEC
  {
    (if delta < 0 then TWO_31 else 0) + Magnitude(delta) as int % TWO_32
  }

  /** How the hardware reads the register: bit 31 is the sign, 30 bits are nanoseconds. */
  function Decoded(val: Word32): int {
    var ns := val as int % TWO_30;
    if val >= TWO_31 then -ns else ns
  }

  /** The clock after a correction by `ns`. */
  function Shifted(t: Time, ns: int): Time {
    var total := Total(t) + ns;
    Time(total / NSEC % TWO_64, total % NSEC)
  }

  // ------------------------------------------------------------------------------------------
  // Read, add, write
  // ------------------------------------------------------------------------------------------

  /** A quotient kept in a signed 32-bit variable. */
  function Int32(x: int): int {
    var r := x % TWO_32;
    if r < TWO_31 then r else r - TWO_32
  }

  /** Seconds and nanoseconds before they are written, with one borrow. */
  function Sum(t: Time, delta: Int64): (int, int) {
    var mag := Magnitude(delta) as int;
    var res := Int32(mag / NSEC);
    var seconds := t.seconds as int + Sign(delta) * res;
    var nanoseconds := t.nanoseconds as int + Sign(delta) * (mag - res * NSEC);
    if nanoseconds < 0 then (seconds - 1, nanoseconds + NSEC) else (seconds, nanoseconds)
  }

  /** Two 32-bit halves, joined again. */
  function Joined(hi: Word32, lo: Word32): Word64 {
    hi as int * TWO_32 + lo as int
  }

  /** What arrives in the clock when it is set: the registers hold 32 bits each. */
  function Written(seconds: int, nanoseconds: int): Time {
    Time(Joined(seconds / TWO_32 % TWO_32, seconds % TWO_32), nanoseconds % TWO_32)
  }

  /** Splitting and joining keeps seconds modulo 2^64. */
  lemma JoinedSplits(seconds: int)
    ensures Joined(seconds / TWO_32 % TWO_32, seconds % TWO_32) as int == seconds % TWO_64
  {
    var hi, lo := seconds / TWO_32, seconds % TWO_32;
    var k := hi / TWO_32;
    assert seconds == k * TWO_64 + (hi % TWO_32 * TWO_32 + lo);
  }

  // ------------------------------------------------------------------------------------------
  // Adjusting is adding
  // ------------------------------------------------------------------------------------------

  /** The clock after adjtime(delta). */
  function Adjusted(t: Time, delta: Int64): Time {
    if delta == 0 then t
    else if Magnitude(delta) <= NSEC then Shifted(t, Decoded(Correction(delta)))
    else Written(Sum(t, delta).0, Sum(t, delta).1)
  }

  function Abs(x: int): nat {
    if x < 0 then -x else x
  }

  /** The number of whole seconds fits the 32-bit variable it is kept in. */
  predicate Representable(delta: Int64) {
    Abs(delta as int) / NSEC < TWO_31
  }

  /** A normalised clock, whose sum with delta is a time the hardware can hold. */
  predicate InRange(t: Time, delta: Int64) {
    t.nanoseconds < NSEC && 0 <= Total(t) + delta as int && t.seconds < TWO_63
  }

  lemma CorrectionIsExact(delta: Int64)
    requires delta > -TWO_63 && Magnitude(delta) <= NSEC
    ensures Decoded(Correction(delta)) == delta as int
  {
  }

  lemma ShiftIsExact(t: Time, ns: int)
    requires 0 <= Total(t) + ns < TWO_64 * NSEC
    ensures Total(Shifted(t, ns)) == Total(t) + ns && Shifted(t, ns).nanoseconds < NSEC
  {
    var total := Total(t) + ns;
    assert total / NSEC % TWO_64 == total / NSEC;
  }

  lemma SmallIsExact(t: Time, delta: Int64)
    requires InRange(t, delta) && delta > -TWO_63 && Magnitude(delta) <= NSEC && delta != 0
    ensures Total(Adjusted(t, delta)) == Total(t) + delta as int
    ensures Adjusted(t, delta).nanoseconds < NSEC
  {
    CorrectionIsExact(delta);
    ShiftIsExact(t, delta as int);
  }

  /** The written seconds and nanoseconds add up to the sum before it is cut to 32 bits. */
  lemma SumIsExact(t: Time, delta: Int64)
    requires delta > -TWO_63
    ensures var (s, n) := Sum(t, delta); s * NSEC + n == Total(t) + delta as int
  {
  }

  lemma LargeIsExact(t: Time, delta: Int64)
    requires InRange(t, delta) && Representable(delta) && Magnitude(delta) > NSEC
    ensures Total(Adjusted(t, delta)) == Total(t) + delta as int
    ensures delta < 0 ==> Adjusted(t, delta).nanoseconds < NSEC
    ensures delta > 0 ==>
              (Adjusted(t, delta).nanoseconds < NSEC <==> t.nanoseconds as int + delta as int % NSEC < NSEC)
  {
    var (s, n) := Sum(t, delta);
    SumIsExact(t, delta);
    RepresentableSum(t, delta);
    FittingIsWritten(s, n);
  }

  lemma FittingIsWritten(seconds: int, nanoseconds: int)
    requires 0 <= seconds < TWO_64 && 0 <= nanoseconds < TWO_32
    ensures Written(seconds, nanoseconds) == Time(seconds, nanoseconds)
  {
    JoinedSplits(seconds);
  }

  lemma RepresentableSum(t: Time, delta: Int64)
    requires InRange(t, delta) && Representable(delta) && Magnitude(delta) > NSEC
    ensures var (s, n) := Sum(t, delta);
            && 0 <= n < 2 * NSEC && 0 <= s < TWO_64
            && (delta < 0 ==> n < NSEC)
            && (delta > 0 ==> n == t.nanoseconds as int + delta as int % NSEC)
  {
    var mag := Magnitude(delta) as int;
    assert Int32(mag / NSEC) == mag / NSEC;
    assert mag - mag / NSEC * NSEC == mag % NSEC;
    SumIsExact(t, delta);
  }

  /** Nanoseconds that do not fit their register are lost, and seconds cannot make up for them. */
  lemma OverflowIsOff(seconds: int, nanoseconds: int)
    requires nanoseconds / TWO_32 != 0 && Abs(nanoseconds / TWO_32) < TWO_32 * NSEC
    ensures Total(Written(seconds, nanoseconds)) != seconds * NSEC + nanoseconds
  {
    JoinedSplits(seconds);
    var a, b := seconds / TWO_64, nanoseconds / TWO_32;
    assert Total(Written(seconds, nanoseconds)) ==
           seconds * NSEC + nanoseconds - (a * TWO_64 * NSEC + b * TWO_32);
    assert a * TWO_32 * NSEC + b != 0;
  }

  /** A quotient that does not fit its variable leaves more nanoseconds than a register holds. */
  lemma TruncatedOverflows(t: Time, delta: Int64)
    requires t.nanoseconds < NSEC && !Representable(delta) && delta > -TWO_63
    ensures var (s, n) := Sum(t, delta); n / TWO_32 != 0 && Abs(n / TWO_32) < TWO_32 * NSEC
  {
    var mag := Magnitude(delta) as int;
    var q := mag / NSEC;
    var left := mag - Int32(q) * NSEC;
    assert TWO_32 * NSEC <= left < 2 * TWO_32 * NSEC + NSEC;
  }

  /** A quotient that does not fit its variable puts the clock off. */
  lemma TruncatedIsOff(t: Time, delta: Int64)
    requires InRange(t, delta) && !Representable(delta)
    ensures Total(Adjusted(t, delta)) != Total(t) + delta as int
  {
    if delta > -TWO_63 {
      var (s, n) := Sum(t, delta);
      TruncatedOverflows(t, delta);
      OverflowIsOff(s, n);
      SumIsExact(t, delta);
    } else {
      assert Decoded(Correction(delta)) == 0;
    }
  }

  /** adjtime adds delta exactly if and only if its whole seconds fit 31 bits. */
  lemma AdjustIsAdd(t: Time, delta: Int64)
    requires InRange(t, delta)
    ensures Total(Adjusted(t, delta)) == Total(t) + delta as int <==> Representable(delta)
  {
    if delta != 0 {
      if !Representable(delta) {
        TruncatedIsOff(t, delta);
      } else if Magnitude(delta) <= NSEC {
        SmallIsExact(t, delta);
      } else {
        LargeIsExact(t, delta);
      }
    }
  }

  /** The clock after adjtime(delta), if it goes on for `elapsed` before the step takes effect: a small
      step is applied to the running clock, a large one to the time that was read before. */
  function Stepped(t: Time, delta: Int64, elapsed: nat): Time {
    if delta == 0 then t
    else if Magnitude(delta) <= NSEC then Shifted(Shifted(t, elapsed), Decoded(Correction(delta)))
    else Adjusted(t, delta)
  }

  /** On the running clock a small step always adds delta, and a large one if and only if no time passes
      between reading and writing the clock. */
  lemma RunningIsAdd(t: Time, delta: Int64, elapsed: nat)
    requires InRange(t, delta) && Representable(delta) && delta != 0
    requires Total(t) + elapsed < TWO_63 * NSEC
    ensures Total(Stepped(t, delta, elapsed)) == Total(Shifted(t, elapsed)) + delta as int <==>
            Magnitude(delta) <= NSEC || elapsed == 0
  {
    ShiftIsExact(t, elapsed);
    if Magnitude(delta) <= NSEC {
      var now := Shifted(t, elapsed);
      assert InRange(now, delta);
      SmallIsExact(now, delta);
      assert Stepped(t, delta, elapsed) == Adjusted(now, delta);
    } else {
      LargeIsExact(t, delta);
    }
  }

  // ------------------------------------------------------------------------------------------
  // The clock and its registers
  // ------------------------------------------------------------------------------------------

  class Clock {
    var time: Time
    var setSecondsHi: Word32
    var setSeconds: Word32
    var setNanoseconds: Word32
    var offsetCorrection: Word32

    constructor (time: Time)
      ensures this.time == time
    {
      this.time := time;
      setSecondsHi, setSeconds, setNanoseconds, offsetCorrection := 0, 0, 0, 0;
    }

    /** The hardware's side of the commands. */
    method WriteClock()
      modifies this`time
      ensures time == Time(Joined(setSecondsHi, setSeconds), setNanoseconds)
    {
      time := Time(Joined(setSecondsHi, setSeconds), setNanoseconds);
    }

    method ApplyOffset()
      modifies this`time
      ensures time == Shifted(old(time), Decoded(offsetCorrection))
    {
      time := Shifted(time, Decoded(offsetCorrection));
    }

    /** The clock goes on. */
    method Pass(elapsed: nat)
      modifies this`time
      ensures time == Shifted(old(time), elapsed)
    {
      time := Shifted(time, elapsed);
    }

    /** Reads the two halves of the seconds and joins them; `valid` says whether the hardware
        answered in time. */
    method GetTime(valid: bool) returns (ok: bool, seconds: int, nanoseconds: int)
      ensures ok == valid
      ensures ok ==> seconds == time.seconds as int && nanoseconds == time.nanoseconds as int
    {
      var hi: Word32 := time.seconds as int / TWO_32;
      var lo: Word32 := time.seconds as int % TWO_32;
      ok, seconds, nanoseconds := valid, Joined(hi, lo), time.nanoseconds;
    }

    method SetTime(seconds: int, nanoseconds: int)
      modifies this
      ensures time == Written(seconds, nanoseconds)
    {
      setSecondsHi := seconds / TWO_32 % TWO_32;
      setSeconds := seconds % TWO_32;
      setNanoseconds := nanoseconds % TWO_32;
      WriteClock();
    }

    /** Moves the clock by delta.  Only a large step can fail, when the clock cannot be read, and then
        the clock is left alone.  `elapsed` is the time until the step takes effect. */
    method AdjTime(delta: Int64, valid: bool, elapsed: nat) returns (ok: bool)
      modifies this
      ensures ok <==> delta == 0 || Magnitude(delta) <= NSEC || valid
      ensures time == if ok then Stepped(old(time), delta, elapsed) else old(time)
    {
      if delta == 0 {
        return true;
      }
      var mag := Magnitude(delta);
      if mag <= NSEC {
        offsetCorrection := Correction(delta);
        Pass(elapsed);
        ApplyOffset();
        return true;
      }
      var seconds, nanoseconds;
      ok, seconds, nanoseconds := GetTime(valid);
      if !ok {
        return;
      }
      var res := Int32(mag as int / NSEC);
      seconds := seconds + Sign(delta) * res;
      nanoseconds := nanoseconds + Sign(delta) * (mag as int - res * NSEC);
      if nanoseconds < 0 {
        seconds := seconds - 1;
        nanoseconds := nanoseconds + NSEC;
      }
      Pass(elapsed);
      SetTime(seconds, nanoseconds);
    }
  }
}
