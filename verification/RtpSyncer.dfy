/**
 The RTP offset synchroniser: the offset that takes the local sample counter to the PTP time,
 computed in eighths of a sample and in 64-bit words that wrap, and the polling loop that keeps
 the offset register of the device up to date.
 */
module RtpSyncer {
  import opened MachineWords
  import opened Options

  const SUB_SAMPLES: nat := 8
  const THRESHOLD: nat := 2

  /** A 64-bit word read as a signed number. */
  function Signed(x: int): int
    requires 0 <= x < TWO_64
  {
    if x < TWO_63 then x else x - TWO_64
  }

  /** Signed 64-bit arithmetic wraps. */
  function Wrap(x: int): int {
    Signed(x % TWO_64)
  }

  // ------------------------------------------------------------------------------------------
  // Sub-samples
  // ------------------------------------------------------------------------------------------

  /** Divide by eight, round a remainder of four or more up, keep 32 bits. */
  function ToSamples32(s: Word64): Word32 {
    var i := s as int / SUB_SAMPLES;
    (if s % SUB_SAMPLES >= SUB_SAMPLES / 2 then i + 1 else i) % TWO_32
  }

  function Diff(s: Word64, other: Word64): int {
    Wrap(Signed(s) - Signed(other))
  }

  /** The magnitude; the one difference that has none in 64 bits stays negative. */
  function DiffAbs(s: Word64, other: Word64): int {
    if Diff(s, other) < 0 then Wrap(-Diff(s, other)) else Diff(s, other)
  }

  function SubtractSamples(s: Word64, i: Word32): Word64 {
    (s as int - i as int * SUB_SAMPLES) % TWO_64
  }

  /** Nanoseconds to sub-samples, exact up to the final division. */
  function PtpToSubSamples(ptp: Word64, rate: nat): Word64 {
    Signed(ptp) * rate * SUB_SAMPLES / NSEC % TWO_64
  }

  // ------------------------------------------------------------------------------------------
  // Rounding is exact
  // ------------------------------------------------------------------------------------------

  /** The integer nearest to n / d, halves up. */
  function RoundHalfUp(n: nat, d: nat): nat
    requires d > 0
  {
    (2 * n + d) / (2 * d)
  }

  lemma Modulo64(x: int, k: int, r: int)
    requires x == k * TWO_64 + r && 0 <= r < TWO_64
    ensures x % TWO_64 == r
  {
  }

  lemma Modulo32(x: int, k: int, r: int)
    requires x == k * TWO_32 + r && 0 <= r < TWO_32
    ensures x % TWO_32 == r
  {
  }

  /** Rounding the eighths rounds the exact quotient. */
  lemma RoundingEighths(n: nat)
    ensures (n * SUB_SAMPLES / NSEC + 4) / 8 == RoundHalfUp(n, NSEC)
  {
  }

  lemma ToSamplesRounds(s: Word64)
    ensures ToSamples32(s) as int == (s as int + 4) / 8 % TWO_32
  {
  }

  /** Adding the local time back undoes the subtraction, also when it wrapped below zero. */
  lemma OffsetAddsBack(q: Word64, local: Word32)
    ensures (local as int + ToSamples32(SubtractSamples(q, local)) as int) % TWO_32 == (q as int + 4) / 8 % TWO_32
  {
    var subs: int := SubtractSamples(q, local);
    var wrapped := if q as int >= local as int * 8 then 0 else 1;
    Modulo64(q as int - local as int * 8, -wrapped, q as int - local as int * 8 + wrapped * TWO_64);
    assert subs == q as int - local as int * 8 + wrapped * TWO_64;
    var k := (q as int + 4) / 8;
    assert (subs + 4) / 8 == k - local as int + wrapped * TWO_61;
    ToSamplesRounds(subs);
    WrappedSum(k, local, wrapped, ToSamples32(subs));
  }

  lemma WrappedSum(k: nat, local: Word32, wrapped: nat, off: Word32)
    requires off as int == (k - local as int + wrapped * TWO_61) % TWO_32
    ensures (local as int + off as int) % TWO_32 == k % TWO_32
  {
    var m := (k - local as int + wrapped * TWO_61) / TWO_32;
    var j := k / TWO_32 + wrapped * 0x2000_0000 - m;
    Modulo32(local as int + off as int, j, k % TWO_32);
  }

  /** Cutting the sub-samples to 64 bits does not change the samples modulo 2^32. */
  lemma CutIsHarmless(x: nat)
    ensures (x % TWO_64 + 4) / 8 % TWO_32 == (x + 4) / 8 % TWO_32
  {
    var a, q := x / TWO_64, x % TWO_64;
    var n := (q + 4) / 8;
    assert (x + 4) / 8 == a * TWO_61 + n;
    Modulo32(a * TWO_61 + n, a * 0x2000_0000 + n / TWO_32, n % TWO_32);
  }

  /** For every PTP time below 2^63 and every rate, the local media time plus the computed offset is the
      exact sample position, rounded half up, modulo 2^32. */
  lemma OffsetIsExact(ptp: Word64, rate: nat, local: Word32)
    requires ptp < TWO_63
    ensures var offset := ToSamples32(SubtractSamples(PtpToSubSamples(ptp, rate), local));
            (local as int + offset as int) % TWO_32 == RoundHalfUp(ptp as int * rate, NSEC) % TWO_32
  {
    var x := ptp as int * rate * SUB_SAMPLES / NSEC;
    CutIsHarmless(x);
    RoundingEighths(ptp as int * rate);
    OffsetAddsBack(PtpToSubSamples(ptp, rate), local);
  }

  // ------------------------------------------------------------------------------------------
  // The polling loop
  // ------------------------------------------------------------------------------------------

  /** One iteration: the timestamps cannot be read, or they are; and whether a write of the register
      would succeed. */
  datatype Tick = ReadError | Tick(ptp: Word64, local: Word32, writeOk: bool)

  /** `calls` are the callbacks made, old and new offset each.  `quiet` counts the iterations since
      the offset was last evaluated, if it ever was. */
  datatype State = State(
    last: Word64, offset: Word32, register: Word32, calls: seq<(Word32, Word32)>,
    evaluated: bool, quiet: nat)

  predicate Quiet(s: State, subs: Word64) {
    DiffAbs(subs, s.last) < THRESHOLD
  }

  function Evaluate(s: State, subs: Word64): State {
    var offset := ToSamples32(subs);
    var s' := s.(last := subs, offset := offset, evaluated := true, quiet := 0);
    if offset == s.offset then s' else s'.(register := offset, calls := s.calls + [(s.offset, offset)])
  }

  /** A failed write ends the loop; nothing has changed then. */
  predicate Fails(s: State, subs: Word64, writeOk: bool) {
    !Quiet(s, subs) && ToSamples32(subs) != s.offset && !writeOk
  }

  function Poll(s: State, subs: Word64): State {
    if Quiet(s, subs) then s.(last := subs, quiet := s.quiet + 1) else Evaluate(s, subs)
  }

  function SubsOf(t: Tick, rate: nat): Word64
    requires t.Tick?
  {
    SubtractSamples(PtpToSubSamples(t.ptp, rate), t.local)
  }

  /** The state after a run, and whether the loop is still going. */
  function RunAll(s: State, ticks: seq<Tick>, rate: nat): (State, bool)
    decreases |ticks|
  {
    if ticks == [] then (s, true)
    else if ticks[0].ReadError? then RunAll(s, ticks[1..], rate)
    else
      var subs := SubsOf(ticks[0], rate);
      if Fails(s, subs, ticks[0].writeOk) then (s, false) else RunAll(Poll(s, subs), ticks[1..], rate)
  }

  /** Each callback's old offset is the previous callback's new one, and differs from its own new. */
  ghost predicate Chain(calls: seq<(Word32, Word32)>, first: Word32, last: Word32) {
    && (calls == [] ==> first == last)
    && (calls != [] ==> calls[0].0 == first && calls[|calls| - 1].1 == last)
    && (forall i | 0 <= i < |calls| :: calls[i].0 != calls[i].1)
    && (forall i | 0 < i < |calls| :: calls[i].0 == calls[i - 1].1)
  }

  /** `a` and `b` differ by at most `d` modulo 2^35, the range of the offset in sub-samples. */
  ghost predicate Near(a: int, b: int, d: nat) {
    exists k: int :: Within(a, b, k, d)
  }

  predicate Within(a: int, b: int, k: int, d: int) {
    -d <= a - b - k * TWO_35 <= d
  }

  ghost predicate Inv(s: State, first: Word32) {
    && s.register == s.offset
    && Chain(s.calls, first, s.offset)
    && (s.evaluated ==> Near(8 * s.offset as int, s.last as int, 4 + s.quiet))
  }

  lemma EvaluatedIsNear(subs: Word64)
    ensures Near(8 * ToSamples32(subs) as int, subs as int, 4)
  {
    ToSamplesRounds(subs);
    var n := (subs as int + 4) / 8;
    var k := -(n / TWO_32);
    assert Within(8 * ToSamples32(subs) as int, subs as int, k, 4);
  }

  lemma SmallDiff(s: Word64, other: Word64)
    requires -1 <= Diff(s, other) <= 1
    ensures Near(other as int, s as int, 1)
  {
    var e := other as int - s as int;
    var k := (e + Diff(s, other)) / TWO_64;
    assert Within(other as int, s as int, k * 0x2000_0000, 1);
  }

  lemma FarDiff(s: Word64, other: Word64)
    requires Diff(s, other) == -TWO_63
    ensures Near(other as int, s as int, 1)
  {
    var e := other as int - s as int;
    assert e % TWO_63 == 0;
    assert Within(other as int, s as int, e / TWO_35, 1);
  }

  /** A quiet iteration moves by at most one sub-sample; the difference without a magnitude is a
      multiple of 2^35. */
  lemma QuietIsClose(s: State, subs: Word64)
    requires Quiet(s, subs)
    ensures Near(s.last as int, subs as int, 1)
  {
    if Diff(subs, s.last) == -TWO_63 {
      FarDiff(subs, s.last);
    } else {
      SmallDiff(subs, s.last);
    }
  }

  lemma NearAdds(a: int, b: int, c: int, d: nat, e: nat)
    requires Near(a, b, d) && Near(b, c, e)
    ensures Near(a, c, d + e)
  {
    var k :| Within(a, b, k, d);
    var l :| Within(b, c, l, e);
    assert Within(a, c, k + l, d + e);
  }

  lemma PollKeeps(s: State, subs: Word64, first: Word32)
    requires Inv(s, first)
    ensures Inv(Poll(s, subs), first)
  {
    if Quiet(s, subs) {
      QuietIsClose(s, subs);
      if s.evaluated {
        NearAdds(8 * s.offset as int, s.last as int, subs as int, 4 + s.quiet, 1);
      }
    } else {
      EvaluatedIsNear(subs);
    }
  }

  /** In every run without another writer the register equals the last offset, the callbacks form a
      chain, and n quiet iterations after an evaluation the offset in sub-samples is within 4 + n of
      the current sub-samples, modulo 2^35. */
  lemma {:induction false} RunKeeps(s: State, ticks: seq<Tick>, rate: nat, first: Word32)
    requires Inv(s, first)
    ensures Inv(RunAll(s, ticks, rate).0, first)
    decreases |ticks|
  {
    if ticks != [] {
      if ticks[0].ReadError? {
        RunKeeps(s, ticks[1..], rate, first);
      } else {
        var subs := SubsOf(ticks[0], rate);
        if !Fails(s, subs, ticks[0].writeOk) {
          PollKeeps(s, subs, first);
          RunKeeps(Poll(s, subs), ticks[1..], rate, first);
        }
      }
    }
  }

  // ------------------------------------------------------------------------------------------
  // When the offset is up to date
  // ------------------------------------------------------------------------------------------

  /** The measurements of a run, in order. */
  function Measured(ticks: seq<Tick>, rate: nat): seq<Word64> {
    if ticks == [] then []
    else if ticks[0].ReadError? then Measured(ticks[1..], rate)
    else [SubsOf(ticks[0], rate)] + Measured(ticks[1..], rate)
  }

  /** The last measurement that is at least the threshold away from the one before it; `prev` comes
      before the first. */
  function LastJump(prev: Word64, ms: seq<Word64>): Option<Word64>
    decreases |ms|
  {
    if ms == [] then None
    else if LastJump(ms[0], ms[1..]).Some? then LastJump(ms[0], ms[1..])
    else if DiffAbs(ms[0], prev) >= THRESHOLD then Some(ms[0])
    else None
  }

  /** The offset after a run is that of the last measurement that jumped, whatever came after it. */
  lemma {:induction false} RunFollowsJump(s: State, ticks: seq<Tick>, rate: nat)
    requires RunAll(s, ticks, rate).1
    ensures var s', ms := RunAll(s, ticks, rate).0, Measured(ticks, rate);
            && s'.offset == (match LastJump(s.last, ms) case Some(m) => ToSamples32(m) case None => s.offset)
            && s'.last == if ms == [] then s.last else ms[|ms| - 1]
    decreases |ticks|
  {
    if ticks != [] {
      if ticks[0].ReadError? {
        RunFollowsJump(s, ticks[1..], rate);
      } else {
        var subs := SubsOf(ticks[0], rate);
        var rest := Measured(ticks[1..], rate);
        assert Measured(ticks, rate)[0] == subs && Measured(ticks, rate)[1..] == rest;
        RunFollowsJump(Poll(s, subs), ticks[1..], rate);
      }
    }
  }

  /** The offset is within half a sample of the last measurement. */
  ghost predicate UpToDate(s: State) {
    Near(8 * s.offset as int, s.last as int, 4)
  }

  /** To the next full sample, halves up, in sub-samples. */
  function Rounded(m: int): int {
    m + 4 - (m + 4) % 8
  }

  lemma RoundedOffset(m: Word64)
    ensures exists k: int :: 8 * ToSamples32(m) as int == Rounded(m as int) + k * TWO_35
  {
    ToSamplesRounds(m);
    var n := (m as int + 4) / 8;
    assert Rounded(m as int) == 8 * n;
    assert 8 * ToSamples32(m) as int == Rounded(m as int) + -(n / TWO_32) * TWO_35;
  }

  lemma NearShifts(a: int, k: int, b: int, d: nat)
    ensures Near(a + k * TWO_35, b, d) <==> Near(a, b, d)
  {
    if Near(a, b, d) {
      var l :| Within(a, b, l, d);
      assert Within(a + k * TWO_35, b, l + k, d);
    }
    if Near(a + k * TWO_35, b, d) {
      var l :| Within(a + k * TWO_35, b, l, d);
      assert Within(a, b, l - k, d);
    }
  }

  /** Exactly when the register is right: the offset is within half a sample of the last measurement if
      and only if that measurement is within half a sample of the last one that jumped, rounded to
      samples.  Without a jump the offset is the one the run started with. */
  lemma UpToDateExactly(s: State, ticks: seq<Tick>, rate: nat)
    requires RunAll(s, ticks, rate).1 && Measured(ticks, rate) != []
    ensures var ms := Measured(ticks, rate);
            var m := ms[|ms| - 1] as int;
            UpToDate(RunAll(s, ticks, rate).0) <==>
            match LastJump(s.last, ms)
            case Some(jump) => Near(Rounded(jump as int), m, 4)
            case None => Near(8 * s.offset as int, m, 4)
  {
    RunFollowsJump(s, ticks, rate);
    var ms := Measured(ticks, rate);
    var jump := LastJump(s.last, ms);
    if jump.Some? {
      RoundedOffset(jump.value);
      var k: int :| 8 * ToSamples32(jump.value) as int == Rounded(jump.value as int) + k * TWO_35;
      NearShifts(Rounded(jump.value as int), k, ms[|ms| - 1] as int, 4);
    }
  }

  /** A run that ended with a failed write is the run before the reading at which it failed. */
  lemma {:induction false} FailedRunIsPrefix(s: State, ticks: seq<Tick>, rate: nat) returns (n: nat)
    requires !RunAll(s, ticks, rate).1
    ensures n < |ticks| && RunAll(s, ticks[..n], rate) == (RunAll(s, ticks, rate).0, true)
    ensures ticks[n].Tick? && Fails(RunAll(s, ticks[..n], rate).0, SubsOf(ticks[n], rate), ticks[n].writeOk)
    decreases |ticks|
  {
    if ticks[0].Tick? && Fails(s, SubsOf(ticks[0], rate), ticks[0].writeOk) {
      n := 0;
    } else {
      var s' := if ticks[0].ReadError? then s else Poll(s, SubsOf(ticks[0], rate));
      n := FailedRunIsPrefix(s', ticks[1..], rate);
      assert ticks[..n + 1][1..] == ticks[1..][..n];
      n := n + 1;
    }
  }

  lemma {:induction false} FailureEndsRun(s: State, ticks: seq<Tick>, rate: nat, n: nat)
    requires n < |ticks| && RunAll(s, ticks[..n], rate).1
    requires ticks[n].Tick? && Fails(RunAll(s, ticks[..n], rate).0, SubsOf(ticks[n], rate), ticks[n].writeOk)
    ensures !RunAll(s, ticks, rate).1
    decreases n
  {
    if n > 0 {
      var s' := if ticks[0].ReadError? then s else Poll(s, SubsOf(ticks[0], rate));
      assert ticks[..n][1..] == ticks[1..][..n - 1];
      FailureEndsRun(s', ticks[1..], rate, n - 1);
    }
  }

  /** Reading `n` asks for a write that fails: it jumps from the measurement before it, and the offset it
      gives is not the one of the last jump. */
  ghost predicate Stops(s: State, ticks: seq<Tick>, rate: nat, n: nat) {
    && n < |ticks| && ticks[n].Tick? && !ticks[n].writeOk && RunAll(s, ticks[..n], rate).1
    && var ms, m := Measured(ticks[..n], rate), SubsOf(ticks[n], rate);
       && DiffAbs(m, if ms == [] then s.last else ms[|ms| - 1]) >= 2
       && ToSamples32(m) != match LastJump(s.last, ms) case Some(jump) => ToSamples32(jump) case None => s.offset
  }

  lemma StopsIsFailure(s: State, ticks: seq<Tick>, rate: nat, n: nat)
    requires n < |ticks| && RunAll(s, ticks[..n], rate).1 && ticks[n].Tick?
    ensures Stops(s, ticks, rate, n) <==>
            Fails(RunAll(s, ticks[..n], rate).0, SubsOf(ticks[n], rate), ticks[n].writeOk)
  {
    RunFollowsJump(s, ticks[..n], rate);
  }

  /** The loop ends by itself exactly if some reading asks for a write that fails; readings that cannot be
      taken do not end it. */
  lemma RunFailsExactly(s: State, ticks: seq<Tick>, rate: nat)
    ensures !RunAll(s, ticks, rate).1 <==> exists n :: Stops(s, ticks, rate, n)
  {
    if !RunAll(s, ticks, rate).1 {
      var n := FailedRunIsPrefix(s, ticks, rate);
      StopsIsFailure(s, ticks, rate, n);
    }
    if n: nat :| Stops(s, ticks, rate, n) {
      StopsIsFailure(s, ticks, rate, n);
      FailureEndsRun(s, ticks, rate, n);
    }
  }

  // ------------------------------------------------------------------------------------------
  // A slow drift is never corrected
  // ------------------------------------------------------------------------------------------

  /** The least PTP time with `q` sub-samples. */
  function PtpFor(q: nat, rate: nat): nat
    requires rate > 0
  {
    (q * NSEC + 8 * rate - 1) / (8 * rate)
  }

  lemma SecondsAre(x: int, q: int)
    requires q * NSEC <= x < (q + 1) * NSEC
    ensures x / NSEC == q
  {
  }

  lemma PtpForBounds(q: nat, rate: nat)
    requires rate > 0
    ensures q * NSEC <= PtpFor(q, rate) * (8 * rate) < q * NSEC + 8 * rate
  {
    var d := 8 * rate;
    var x := q * NSEC + d - 1;
    assert x == x / d * d + x % d;
  }

  /** At a rate of at most one sub-sample per nanosecond every number of sub-samples is measured at some
      PTP time, as far as PTP times reach. */
  lemma EverySubSample(q: Word64, rate: nat)
    requires 0 < 8 * rate <= NSEC && PtpFor(q, rate) < TWO_63
    ensures PtpToSubSamples(PtpFor(q, rate), rate) == q
  {
    var ptp := PtpFor(q, rate);
    PtpForBounds(q, rate);
    assert ptp * rate * SUB_SAMPLES == ptp * (8 * rate);
    SecondsAre(ptp * rate * SUB_SAMPLES, q as int);
  }

  /** Four sub-samples above a full sample, where the drift begins. */
  const START: int := TWO_35 / 2 + 4

  /** The i-th reading of the drift: the local clock has advanced by i samples, the PTP clock by one
      sub-sample less per sample. */
  function Reading(i: nat, rate: nat): Tick
    requires 0 < 8 * rate <= NSEC && i < TWO_32
  {
    PtpForFits(START + 7 * i, rate);
    Tick(PtpFor(START + 7 * i, rate), i, true)
  }

  lemma PtpForFits(q: nat, rate: nat)
    requires 0 < rate && q < 2 * TWO_35
    ensures PtpFor(q, rate) < TWO_63
  {
    var ptp := PtpFor(q, rate);
    PtpForBounds(q, rate);
    if ptp > 0 {
      assert (ptp - 1) * (8 * rate) < q * NSEC;
      TimesRate(ptp - 1, rate);
    }
  }

  lemma TimesRate(a: nat, rate: nat)
    requires rate > 0
    ensures 8 * a <= a * (8 * rate)
  {
    assert a * (8 * rate) == 8 * a + a * (8 * (rate - 1));
  }

  /** Measurements go down by one sub-sample per reading. */
  lemma ReadingMeasures(i: nat, rate: nat)
    requires 0 < 8 * rate <= NSEC && i < TWO_32
    ensures SubsOf(Reading(i, rate), rate) as int == START - i
  {
    PtpForFits(START + 7 * i, rate);
    EverySubSample(START + 7 * i, rate);
    assert START + 7 * i - i * SUB_SAMPLES == START - i;
  }

  lemma Cancel(a: int, b: int, d: int)
    requires d > 0 && a * d < b * d
    ensures a < b
  {
  }

  lemma PtpForGrows(q: nat, q': nat, rate: nat)
    requires 0 < 8 * rate <= NSEC && q < q'
    ensures PtpFor(q, rate) < PtpFor(q', rate)
  {
    PtpForBounds(q, rate);
    PtpForBounds(q', rate);
    Cancel(PtpFor(q, rate), PtpFor(q', rate), 8 * rate);
  }

  /** The first n + 1 readings. */
  function Drift(n: nat, rate: nat): (ticks: seq<Tick>)
    requires 0 < 8 * rate <= NSEC && n < TWO_32
    ensures |ticks| == n + 1
    ensures forall i | 0 <= i <= n :: ticks[i] == Reading(i, rate)
  {
    (if n == 0 then [] else Drift(n - 1, rate)) + [Reading(n, rate)]
  }

  /** Both clocks advance from reading to reading. */
  predicate Advancing(ticks: seq<Tick>) {
    && (forall i | 0 <= i < |ticks| :: ticks[i].Tick?)
    && (forall i, j | 0 <= i < j < |ticks| :: ticks[i].ptp < ticks[j].ptp && ticks[i].local < ticks[j].local)
  }

  lemma DriftAdvances(n: nat, rate: nat)
    requires 0 < 8 * rate <= NSEC && n < TWO_32
    ensures Advancing(Drift(n, rate))
  {
    forall i, j | 0 <= i < j <= n ensures Reading(i, rate).ptp < Reading(j, rate).ptp {
      PtpForGrows(START + 7 * i, START + 7 * j, rate);
    }
  }

  lemma {:induction false} RunAppend(s: State, ticks: seq<Tick>, t: Tick, rate: nat)
    requires RunAll(s, ticks, rate).1 && t.Tick? && t.writeOk
    ensures RunAll(s, ticks + [t], rate) == (Poll(RunAll(s, ticks, rate).0, SubsOf(t, rate)), true)
    decreases |ticks|
  {
    if ticks == [] {
      assert RunAll(s, [t], rate) == RunAll(Poll(s, SubsOf(t, rate)), [], rate);
    } else {
      assert (ticks + [t])[1..] == ticks[1..] + [t];
      var s' := if ticks[0].ReadError? then s else Poll(s, SubsOf(ticks[0], rate));
      RunAppend(s', ticks[1..], t, rate);
    }
  }

  lemma OneDownIsQuiet(s: State, subs: Word64)
    requires s.last as int == subs as int + 1 && s.last < TWO_63
    ensures Quiet(s, subs)
  {
    assert Diff(subs, s.last) == -1;
  }

  lemma StartOffset()
    ensures ToSamples32(START) as int == TWO_32 / 2 + 1
  {
  }

  /** Only the first reading of the drift is evaluated. */
  lemma {:induction false} DriftIsQuiet(s: State, n: nat, rate: nat)
    requires 0 < 8 * rate <= NSEC && n < TWO_32 && !Quiet(s, START)
    ensures var (d, ok) := RunAll(s, Drift(n, rate), rate);
            ok && d.evaluated && d.quiet == n && d.last as int == START - n && d.offset as int == TWO_32 / 2 + 1
  {
    ReadingMeasures(n, rate);
    if n == 0 {
      StartOffset();
      assert Drift(0, rate) == [] + [Reading(0, rate)];
      RunAppend(s, [], Reading(0, rate), rate);
    } else {
      DriftIsQuiet(s, n - 1, rate);
      RunAppend(s, Drift(n - 1, rate), Reading(n, rate), rate);
      OneDownIsQuiet(RunAll(s, Drift(n - 1, rate), rate).0, START - n);
    }
  }

  /** The bound cannot be improved: at every rate and for every n there are readings of two advancing
      clocks with n quiet iterations after an evaluation that leave the offset exactly 4 + n sub-samples
      off, so the deviation of a drifting clock is not bounded by the threshold.  The local clock has
      32 bits, and its wrap ends every drift. */
  lemma DriftBoundIsTight(s: State, n: nat, rate: nat)
    requires 0 < 8 * rate <= NSEC && n < TWO_32 && !Quiet(s, START)
    ensures Advancing(Drift(n, rate))
    ensures var (d, ok) := RunAll(s, Drift(n, rate), rate);
            && ok && d.quiet == n
            && !Near(8 * d.offset as int, d.last as int, 3 + n)
            && (n > 0 ==> !UpToDate(d))
  {
    DriftAdvances(n, rate);
    DriftIsQuiet(s, n, rate);
    var d := RunAll(s, Drift(n, rate), rate).0;
    FarApart(8 * d.offset as int, d.last as int, 4 + n);
  }

  /** A wrap of the local clock is noticed: with a PTP clock that does not run backwards, the measurement
      jumps. */
  lemma WrapIsNoticed(q: Word64, local: Word32, q': Word64, local': Word32)
    requires q <= q' < TWO_63 / 2 && local' < local
    ensures DiffAbs(SubtractSamples(q', local'), SubtractSamples(q, local)) >= THRESHOLD
  {
    SubtractedIs(q, local);
    SubtractedIs(q', local');
  }

  lemma SubtractedIs(q: Word64, local: Word32)
    requires q < TWO_63 / 2
    ensures Signed(SubtractSamples(q, local)) == q as int - 8 * local as int
  {
    var x := q as int - 8 * local as int;
    if x < 0 {
      Modulo64(x, -1, x + TWO_64);
    } else {
      Modulo64(x, 0, x);
    }
  }

  lemma FarApart(a: int, b: int, d: nat)
    requires a - b == d && 0 < d < TWO_35 / 2
    ensures forall e: nat | e < d :: !Near(a, b, e)
  {
  }

  // ------------------------------------------------------------------------------------------
  // The synchroniser object
  // ------------------------------------------------------------------------------------------

  class Syncer {
    const sampleRate: nat
    var lastSubSamples: Word64
    var lastOffset: Word32
    var register: Word32
    var calls: seq<(Word32, Word32)>
    ghost var evaluated: bool
    ghost var quiet: nat

    ghost function Abstract(): State
      reads this
    {
      State(lastSubSamples, lastOffset, register, calls, evaluated, quiet)
    }

    /** The last offset starts as the register is found. */
    constructor (sampleRate: nat, register: Word32)
      ensures this.sampleRate == sampleRate && this.register == register
      ensures Abstract() == State(0, register, register, [], false, 0) && Inv(Abstract(), register)
    {
      this.sampleRate := sampleRate;
      this.register := register;
      lastSubSamples, lastOffset, calls := 0, register, [];
      evaluated, quiet := false, 0;
    }

    /** Returns false when a write of the register failed, true when cancelled after all ticks. */
    method Run(ticks: seq<Tick>) returns (ok: bool)
      modifies this
      ensures (Abstract(), ok) == RunAll(old(Abstract()), ticks, sampleRate)
    {
      var i := 0;
      while i < |ticks|
        invariant 0 <= i <= |ticks|
        invariant RunAll(old(Abstract()), ticks, sampleRate) == RunAll(Abstract(), ticks[i..], sampleRate)
      {
        assert ticks[i..][1..] == ticks[i + 1..];
        var t := ticks[i];
        i := i + 1;
        if t.ReadError? {
          continue;
        }
        var subs := SubtractSamples(PtpToSubSamples(t.ptp, sampleRate), t.local);
        if DiffAbs(subs, lastSubSamples) >= THRESHOLD {
          var offset := ToSamples32(subs);
          if offset != lastOffset {
            if !t.writeOk {
              return false;
            }
            register := offset;
            calls := calls + [(lastOffset, offset)];
          }
          lastOffset := offset;
          evaluated, quiet := true, 0;
        } else {
          quiet := quiet + 1;
        }
        lastSubSamples := subs;
      }
      ok := true;
    }
  }
}
