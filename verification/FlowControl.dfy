/**
 The handshake between transmit and the "space available" interrupt.

 When the transmit FIFO runs low, transmit stops the queue and then enables the interrupt; the
 handler disables the interrupt and wakes the queue.  Transmit, the handler, the reset after a
 transmit timeout, the receive poll and the timestamp configuration interleave statement by
 statement; transmit and the timeout exclude each other.
 */
module FlowControl {

  /** The next statement of transmit: set the throttle flag, stop the queue, program the FIFO level,
      enable the interrupt, test the throttle flag, wake the queue. */
  datatype Xmit = XIdle | XThrottle | XStop | XLevel | XEnable | XTest | XWake

  /** The next statement of the handler, once it has seen the enabled interrupt pending. */
  datatype Irq = HIdle | HDisable | HUnthrottle | HWake

  /** The next statement of the timeout. */
  datatype Reset = RIdle | RDisable | RUnthrottle | RWake

  /** The timestamp configuration stops the queue and starts it again. */
  datatype Config = CIdle | CStart

  datatype State = State(
    stopped: bool, enabled: bool, throttle: bool, level: bool,
    xmit: Xmit, irq: Irq, reset: Reset, config: Config)

  datatype Event =
    | XmitLow        // transmit finds the FIFO low
    | XmitAmple      // transmit finds enough space
    | XmitStep
    | IrqRaise       // the handler reads the enabled interrupt as pending
    | IrqStep
    | Timeout
    | ResetStep
    | Poll           // the receive poll wakes a stopped queue
    | ConfigStop
    | ConfigStep

  const OPEN := State(false, false, false, false, XIdle, HIdle, RIdle, CIdle)

  predicate Enabled(s: State, e: Event) {
    match e
    case XmitLow => s.xmit.XIdle? && s.reset.RIdle?
    case XmitAmple => s.xmit.XIdle? && s.reset.RIdle?
    case XmitStep => !s.xmit.XIdle?
    case IrqRaise => s.irq.HIdle? && s.enabled
    case IrqStep => !s.irq.HIdle?
    case Timeout => s.reset.RIdle? && s.xmit.XIdle?
    case ResetStep => !s.reset.RIdle?
    case Poll => true
    case ConfigStop => s.config.CIdle?
    case ConfigStep => !s.config.CIdle?
  }

  function XmitNext(s: State): State {
    match s.xmit
    case XIdle => s
    case XThrottle => s.(throttle := true, xmit := XStop)
    case XStop => s.(stopped := true, xmit := XLevel)
    case XLevel => s.(level := true, xmit := XEnable)
    case XEnable => s.(enabled := true, xmit := XTest)
    case XTest => s.(xmit := if s.throttle then XIdle else XWake)
    case XWake => s.(stopped := false, xmit := XIdle)
  }

  function IrqNext(s: State): State {
    match s.irq
    case HIdle => s
    case HDisable => s.(enabled := false, irq := HUnthrottle)
    case HUnthrottle => s.(throttle := false, irq := HWake)
    case HWake => s.(stopped := false, irq := HIdle)
  }

  function ResetNext(s: State): State {
    match s.reset
    case RIdle => s
    case RDisable => s.(enabled := false, reset := RUnthrottle)
    case RUnthrottle => s.(throttle := false, reset := RWake)
    case RWake => s.(stopped := false, reset := RIdle)
  }

  function Next(s: State, e: Event): State {
    if !Enabled(s, e) then s else
    match e
    case XmitLow => s.(xmit := XThrottle)
    case XmitAmple => s.(xmit := XTest)
    case XmitStep => XmitNext(s)
    case IrqRaise => s.(irq := HDisable)
    case IrqStep => IrqNext(s)
    case Timeout => s.(reset := RDisable)
    case ResetStep => ResetNext(s)
    case Poll => s.(stopped := false)
    case ConfigStop => s.(stopped := true, config := CStart)
    case ConfigStep => s.(stopped := false, config := CIdle)
  }

  function Exec(s: State, events: seq<Event>): State
    decreases |events|
  {
    if events == [] then s else Exec(Next(s, events[0]), events[1..])
  }

  /** Somebody will wake the queue: the interrupt is enabled, transmit has still to enable it, or a
      handler, a reset or the configuration still has its wake to perform. */
  predicate WakePending(s: State) {
    || s.enabled
    || s.xmit.XLevel? || s.xmit.XEnable?
    || s.irq.HUnthrottle? || s.irq.HWake?
    || s.reset.RUnthrottle? || s.reset.RWake?
    || s.config.CStart?
  }

  predicate Inv(s: State) {
    && (s.stopped ==> WakePending(s))
    && (s.enabled || s.xmit.XEnable? ==> s.level)
    && (!s.xmit.XIdle? ==> s.reset.RIdle?)
    && (s.xmit.XWake? ==> !s.throttle)
  }

  lemma NextKeeps(s: State, e: Event)
    requires Inv(s)
    ensures Inv(Next(s, e))
  {
  }

  lemma {:induction false} ExecKeeps(s: State, events: seq<Event>)
    requires Inv(s)
    ensures Inv(Exec(s, events))
    decreases |events|
  {
    if events != [] {
      NextKeeps(s, events[0]);
      ExecKeeps(Next(s, events[0]), events[1..]);
    }
  }

  /** No lost wake-up: in every interleaving a stopped queue has a wake pending, and the interrupt is
      never enabled before the FIFO level is programmed. */
  lemma NoLostWakeup(events: seq<Event>)
    ensures var s := Exec(OPEN, events); (s.stopped ==> WakePending(s)) && (s.enabled ==> s.level)
  {
    ExecKeeps(OPEN, events);
  }

  /** When nothing is in progress, a stopped queue has its interrupt enabled. */
  lemma QuietIsArmed(events: seq<Event>)
    requires var s := Exec(OPEN, events); s.xmit.XIdle? && s.irq.HIdle? && s.reset.RIdle? && s.config.CIdle?
    ensures var s := Exec(OPEN, events); s.stopped ==> s.enabled
  {
    ExecKeeps(OPEN, events);
  }

  // ------------------------------------------------------------------------------------------
  // The wake arrives
  // ------------------------------------------------------------------------------------------

  lemma {:induction false} ExecConcat(s: State, a: seq<Event>, b: seq<Event>)
    ensures Exec(s, a + b) == Exec(Exec(s, a), b)
    decreases |a|
  {
    if a == [] {
      assert a + b == b;
    } else {
      assert (a + b)[1..] == a[1..] + b;
      ExecConcat(Next(s, a[0]), a[1..], b);
    }
  }

  /** Statements left for each thread. */
  function XmitRank(x: Xmit): nat {
    match x
    case XIdle => 0 case XWake => 1 case XTest => 2 case XEnable => 3 case XLevel => 4 case XStop => 5
    case XThrottle => 6
  }

  function IrqRank(h: Irq): nat {
    match h case HIdle => 0 case HWake => 1 case HUnthrottle => 2 case HDisable => 3
  }

  function ResetRank(r: Reset): nat {
    match r case RIdle => 0 case RWake => 1 case RUnthrottle => 2 case RDisable => 3
  }

  function ConfigRank(c: Config): nat {
    if c.CIdle? then 0 else 1
  }

  function Rank(s: State): nat {
    XmitRank(s.xmit) + IrqRank(s.irq) + ResetRank(s.reset) + ConfigRank(s.config)
  }

  /** A thread that still has a statement to execute. */
  function Unfinished(s: State): Event {
    if !s.xmit.XIdle? then XmitStep
    else if !s.irq.HIdle? then IrqStep
    else if !s.reset.RIdle? then ResetStep
    else ConfigStep
  }

  lemma XmitAdvances(s: State)
    requires !s.xmit.XIdle?
    ensures Rank(XmitNext(s)) < Rank(s)
  {
    var s' := XmitNext(s);
    assert s'.irq == s.irq && s'.reset == s.reset && s'.config == s.config;
    match s.xmit
    case XThrottle => assert s'.xmit == XStop;
    case XStop => assert s'.xmit == XLevel;
    case XLevel => assert s'.xmit == XEnable;
    case XEnable => assert s'.xmit == XTest;
    case XTest => assert s'.xmit == XIdle || s'.xmit == XWake;
    case XWake => assert s'.xmit == XIdle;
  }

  lemma IrqAdvances(s: State)
    requires !s.irq.HIdle?
    ensures Rank(IrqNext(s)) < Rank(s)
  {
    assert IrqRank(IrqNext(s).irq) < IrqRank(s.irq);
  }

  lemma ResetAdvances(s: State)
    requires !s.reset.RIdle?
    ensures Rank(ResetNext(s)) < Rank(s)
  {
    assert ResetRank(ResetNext(s).reset) < ResetRank(s.reset);
  }

  lemma UnfinishedAdvances(s: State)
    requires Rank(s) > 0
    ensures Rank(Next(s, Unfinished(s))) < Rank(s)
  {
    if !s.xmit.XIdle? {
      XmitAdvances(s);
    } else if !s.irq.HIdle? {
      IrqAdvances(s);
    } else if !s.reset.RIdle? {
      ResetAdvances(s);
    }
  }

  /** From every state that can be reached, letting the threads finish and then the interrupt fire
      wakes the queue, in at most 17 statements and without a new transmit. */
  lemma {:induction false} WakeArrives(s: State) returns (events: seq<Event>)
    requires Inv(s)
    ensures !Exec(s, events).stopped
    ensures |events| <= Rank(s) + 4
    ensures forall i | 0 <= i < |events| :: events[i] in {XmitStep, IrqStep, ResetStep, ConfigStep, IrqRaise}
    decreases Rank(s)
  {
    if !s.stopped {
      return [];
    }
    if Rank(s) > 0 {
      UnfinishedAdvances(s);
      NextKeeps(s, Unfinished(s));
      var rest := WakeArrives(Next(s, Unfinished(s)));
      events := [Unfinished(s)] + rest;
      assert events[1..] == rest;
    } else {
      events := [IrqRaise, IrqStep, IrqStep, IrqStep];
      ExecFour(s, events);
    }
  }

  lemma ExecFour(s: State, es: seq<Event>)
    requires |es| == 4
    ensures Exec(s, es) == Next(Next(Next(Next(s, es[0]), es[1]), es[2]), es[3])
  {
    assert es == [es[0]] + ([es[1]] + ([es[2]] + [es[3]]));
    ExecConcat(s, [es[0]], [es[1]] + ([es[2]] + [es[3]]));
    ExecConcat(Next(s, es[0]), [es[1]], [es[2]] + [es[3]]);
    ExecConcat(Next(Next(s, es[0]), es[1]), [es[2]], [es[3]]);
  }

  // ------------------------------------------------------------------------------------------
  // Each thread on its own
  // ------------------------------------------------------------------------------------------

  function Times(e: Event, n: nat): (events: seq<Event>)
    ensures |events| == n
  {
    if n == 0 then [] else [e] + Times(e, n - 1)
  }

  /** A thread that has nothing to do does nothing. */
  lemma {:induction false} NothingToDo(s: State, e: Event, n: nat)
    requires Next(s, e) == s
    ensures Exec(s, Times(e, n)) == s
  {
    if n > 0 {
      assert Times(e, n)[1..] == Times(e, n - 1);
      NothingToDo(s, e, n - 1);
    }
  }

  lemma OneMore(s: State, e: Event, n: nat)
    requires n > 0
    ensures Exec(s, Times(e, n)) == Exec(Next(s, e), Times(e, n - 1))
  {
    assert Times(e, n)[1..] == Times(e, n - 1);
  }

  lemma Starts(s: State, first: Event, e: Event, n: nat)
    ensures Exec(s, [first] + Times(e, n)) == Exec(Next(s, first), Times(e, n))
  {
    assert ([first] + Times(e, n))[1..] == Times(e, n);
  }

  /** A transmit that finds the FIFO low and runs to its end undisturbed leaves the queue stopped, the
      throttle flag set, the level programmed and the interrupt enabled, and nothing else changed. */
  lemma LowStopsQueue(s: State, n: nat)
    requires s.xmit.XIdle? && s.reset.RIdle? && n >= 5
    ensures Exec(s, [XmitLow] + Times(XmitStep, n))
            == s.(stopped := true, throttle := true, level := true, enabled := true)
  {
    Starts(s, XmitLow, XmitStep, n);
    var s0 := s.(xmit := XThrottle);
    var s1 := s0.(throttle := true, xmit := XStop);
    var s2 := s1.(stopped := true, xmit := XLevel);
    var s3 := s2.(level := true, xmit := XEnable);
    var s4 := s3.(enabled := true, xmit := XTest);
    OneMore(s0, XmitStep, n);
    OneMore(s1, XmitStep, n - 1);
    OneMore(s2, XmitStep, n - 2);
    OneMore(s3, XmitStep, n - 3);
    OneMore(s4, XmitStep, n - 4);
    NothingToDo(s4.(xmit := XIdle), XmitStep, n - 5);
  }

  /** A transmit that finds enough space wakes the queue exactly if the flag is not set. */
  lemma AmpleWakesUnthrottled(s: State, n: nat)
    requires s.xmit.XIdle? && s.reset.RIdle? && n >= 2
    ensures Exec(s, [XmitAmple] + Times(XmitStep, n)) == if s.throttle then s else s.(stopped := false)
  {
    Starts(s, XmitAmple, XmitStep, n);
    var s0 := s.(xmit := XTest);
    OneMore(s0, XmitStep, n);
    if s.throttle {
      NothingToDo(s, XmitStep, n - 1);
    } else {
      OneMore(s0.(xmit := XWake), XmitStep, n - 1);
      NothingToDo(s.(stopped := false), XmitStep, n - 2);
    }
  }

  /** The handler, undisturbed: interrupt disabled, flag cleared, queue awake. */
  lemma HandlerWakes(s: State, n: nat)
    requires s.irq.HIdle? && s.enabled && n >= 3
    ensures Exec(s, [IrqRaise] + Times(IrqStep, n)) == s.(enabled := false, throttle := false, stopped := false)
  {
    Starts(s, IrqRaise, IrqStep, n);
    var s0 := s.(irq := HDisable);
    var s1 := s0.(enabled := false, irq := HUnthrottle);
    var s2 := s1.(throttle := false, irq := HWake);
    OneMore(s0, IrqStep, n);
    OneMore(s1, IrqStep, n - 1);
    OneMore(s2, IrqStep, n - 2);
    NothingToDo(s2.(stopped := false, irq := HIdle), IrqStep, n - 3);
  }

  /** The reset after a timeout does the same. */
  lemma ResetWakes(s: State, n: nat)
    requires s.reset.RIdle? && s.xmit.XIdle? && n >= 3
    ensures Exec(s, [Timeout] + Times(ResetStep, n)) == s.(enabled := false, throttle := false, stopped := false)
  {
    Starts(s, Timeout, ResetStep, n);
    var s0 := s.(reset := RDisable);
    var s1 := s0.(enabled := false, reset := RUnthrottle);
    var s2 := s1.(throttle := false, reset := RWake);
    OneMore(s0, ResetStep, n);
    OneMore(s1, ResetStep, n - 1);
    OneMore(s2, ResetStep, n - 2);
    NothingToDo(s2.(stopped := false, reset := RIdle), ResetStep, n - 3);
  }

  // ------------------------------------------------------------------------------------------
  // The throttle flag
  // ------------------------------------------------------------------------------------------

  /** Event `i` of the run is the transmit that sets the flag. */
  ghost predicate Sets(events: seq<Event>, i: nat) {
    i < |events| && events[i] == XmitStep && Exec(OPEN, events[..i]).xmit.XThrottle?
  }

  /** Event `i` of the run is a handler or a reset that clears it. */
  ghost predicate Clears(events: seq<Event>, i: nat) {
    i < |events| &&
    var s := Exec(OPEN, events[..i]);
    || (events[i] == IrqStep && s.irq.HUnthrottle?)
    || (events[i] == ResetStep && s.reset.RUnthrottle?)
  }

  /** Set by event `i` and not cleared since. */
  ghost predicate SetSince(events: seq<Event>, i: nat) {
    Sets(events, i) && forall j | i < j < |events| :: !Clears(events, j)
  }

  lemma ExecAppend(events: seq<Event>, e: Event)
    ensures Exec(OPEN, events + [e]) == Next(Exec(OPEN, events), e)
  {
    ExecConcat(OPEN, events, [e]);
    assert Exec(Exec(OPEN, events), [e]) == Exec(Next(Exec(OPEN, events), e), []);
  }

  lemma SameBefore(events: seq<Event>, e: Event, i: nat)
    requires i < |events|
    ensures Sets(events + [e], i) == Sets(events, i) && Clears(events + [e], i) == Clears(events, i)
  {
    assert (events + [e])[..i] == events[..i];
  }

  lemma SinceAppend(events: seq<Event>, e: Event, i: nat)
    requires i < |events|
    ensures SetSince(events + [e], i) <==> SetSince(events, i) && !Clears(events + [e], |events|)
  {
    forall j | 0 <= j < |events|
      ensures Sets(events + [e], j) == Sets(events, j) && Clears(events + [e], j) == Clears(events, j)
    {
      SameBefore(events, e, j);
    }
  }

  /** In every interleaving the flag is set exactly if some transmit set it and no handler or reset has
      cleared it since. */
  lemma {:induction false} FlagIsLastChange(events: seq<Event>)
    ensures Exec(OPEN, events).throttle <==> exists i :: SetSince(events, i)
    decreases |events|
  {
    if events != [] {
      var init, e := events[..|events| - 1], events[|events| - 1];
      assert events == init + [e];
      FlagIsLastChange(init);
      ExecAppend(init, e);
      assert events[..|init|] == init;
      forall i: nat | i < |init| ensures SetSince(events, i) <==> SetSince(init, i) && !Clears(events, |init|) {
        SinceAppend(init, e, i);
      }
      if Sets(events, |init|) {
        assert SetSince(events, |init|);
      }
    }
  }

  /** In every interleaving transmit itself wakes a stopped queue only if each setting of the flag so far
      was followed by a clearing of it. */
  lemma TransmitWakesOnlyCleared(events: seq<Event>, i: nat)
    requires var s := Exec(OPEN, events); s.stopped && !Next(s, XmitStep).stopped
    requires Sets(events, i)
    ensures exists j :: i < j < |events| && Clears(events, j)
  {
    ExecKeeps(OPEN, events);
    FlagIsLastChange(events);
    assert !SetSince(events, i);
  }
}
