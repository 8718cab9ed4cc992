/**
 Transmit timestamps: packets waiting for their hardware timestamp and timestamps read from the
 FPGA are queued in two rings, and a worker joins them on the PTP sequence id.

 This module is the protocol as a step system.  Each locked section of the driver is one step, the
 delivery of a timestamp outside the lock is a step of its own, and all steps interleave freely.
 The rings are kept as histories: every packet ever queued and every timestamp ever stored, with
 the position of the head of each ring.
 */
module TxTimestamps {
  import opened MachineWords
  import opened Options

  const RING_SIZE: nat := 64
  const START_OF_TS: nat := 0x1588

  /** A packet as the rings see it: its identity, its length, and the PTP sequence id in it, if it is
      long enough to hold one. */
  datatype Packet = Packet(id: nat, length: nat, sequenceId: Option<nat>)

  datatype Timestamp = Timestamp(secondsHi: nat, seconds: Word32, nanoseconds: Word32, sequenceId: nat)

  // ------------------------------------------------------------------------------------------
  // The decision about one packet and one timestamp
  // ------------------------------------------------------------------------------------------

  /** Ethernet header, IPv4 header of the length the packet gives, UDP header, offset in PTP. */
  function SequenceOffset(data: seq<Byte>): nat {
    14 + 4 * (if |data| > 14 then data[14] % 16 else 0) + 8 + 30
  }

  function SequenceIdOf(data: seq<Byte>): Option<nat> {
    var i := SequenceOffset(data);
    if |data| < i + 2 then None else Some(data[i] as int * 0x100 + data[i + 1] as int)
  }

  function PacketOf(id: nat, data: seq<Byte>): Packet {
    Packet(id, |data|, SequenceIdOf(data))
  }

  /** The id of a PTP packet over UDP and IPv4, whatever the length of its IP header: octets 30 and 31 of
      the PTP message.  A packet that ends before them has none, wherever it ends. */
  lemma SequenceIdReadsBack(eth: seq<Byte>, ip: seq<Byte>, udp: seq<Byte>, ptp: seq<Byte>, ihl: nat, n: nat)
    requires |eth| == 14 && ihl > 0 && |ip| == 4 * ihl && ip[0] % 16 == ihl && |udp| == 8 && |ptp| >= 32
    requires n <= 14 + 4 * ihl + 8 + |ptp|
    ensures SequenceIdOf((eth + ip + udp + ptp)[..n]) ==
            if n < 14 + 4 * ihl + 8 + 32 then None else Some(ptp[30] as int * 0x100 + ptp[31] as int)
  {
    var data := (eth + ip + udp + ptp)[..n];
    var i := 14 + 4 * ihl + 8 + 30;
    if n > 14 {
      assert data[14] == ip[0];
      assert SequenceOffset(data) == i;
    }
    if n >= i + 2 {
      assert data[i] == ptp[30] && data[i + 1] == ptp[31];
    }
  }

  datatype Decision = Decision(tsConsumed: bool, skbConsumed: bool, doStamp: bool)

  /** What to do with the two heads.  At least one of them is consumed, a stamp is made only for equal
      ids, and otherwise the older one is given up; a packet without an id takes the timestamp along. */
  function Decide(p: Packet, ts: Timestamp): (d: Decision)
    ensures d.tsConsumed || d.skbConsumed
    ensures d.doStamp <==> p.sequenceId == Some(ts.sequenceId)
    ensures d.doStamp ==> d.tsConsumed && d.skbConsumed
    ensures p.sequenceId.None? ==> d.tsConsumed && d.skbConsumed
    ensures p.sequenceId.Some? ==> (d.tsConsumed <==> ts.sequenceId <= p.sequenceId.value)
    ensures p.sequenceId.Some? ==> (d.skbConsumed <==> p.sequenceId.value <= ts.sequenceId)
  {
    match p.sequenceId
    case None => Decision(true, true, false)
    case Some(id) =>
      if ts.sequenceId == id then Decision(true, true, true)
      else if ts.sequenceId < id then Decision(true, false, false)
      else Decision(false, true, false)
  }

  /** The time handed to the socket: nanoseconds in a 64-bit word. */
  function HwTime(ts: Timestamp): nat {
    ((ts.secondsHi * TWO_32 + ts.seconds) * NSEC + ts.nanoseconds) % TWO_64
  }

  /** Seconds and nanoseconds can be told from the time exactly if it fits 64 bits. */
  lemma HwTimeReadsBack(ts: Timestamp)
    requires ts.nanoseconds < NSEC
    ensures var seconds := ts.secondsHi * TWO_32 + ts.seconds;
            HwTime(ts) / NSEC == seconds && HwTime(ts) % NSEC == ts.nanoseconds <==>
            seconds * NSEC + ts.nanoseconds < TWO_64
  {
    var seconds := ts.secondsHi * TWO_32 + ts.seconds;
    var total := seconds * NSEC + ts.nanoseconds;
    QuotientRemainder(seconds, ts.nanoseconds);
    if total >= TWO_64 {
      assert HwTime(ts) != total;
      assert HwTime(ts) == HwTime(ts) / NSEC * NSEC + HwTime(ts) % NSEC;
    }
  }

  lemma QuotientRemainder(q: nat, r: nat)
    requires r < NSEC
    ensures (q * NSEC + r) / NSEC == q && (q * NSEC + r) % NSEC == r
  {
  }

  // ------------------------------------------------------------------------------------------
  // Reading a timestamp record from the FIFO
  // ------------------------------------------------------------------------------------------

  predicate IsStart(w: Word32) {
    w / TWO_16 == START_OF_TS
  }

  /** The first of the words `i .. 4` that starts a record.  `fifo(i)` is the i-th word read. */
  function FindStart(fifo: nat -> Word32, i: nat): (r: Option<nat>)
    requires i <= 4
    ensures r.Some? ==> i <= r.value < 4 && IsStart(fifo(r.value))
    ensures forall j | i <= j < 4 && (r.Some? ==> j < r.value) :: !IsStart(fifo(j))
    decreases 4 - i
  {
    if i == 4 then None
    else if IsStart(fifo(i)) then Some(i)
    else FindStart(fifo, i + 1)
  }

  function RecordAt(fifo: nat -> Word32, i: nat): Timestamp {
    Timestamp(fifo(i) % TWO_16, fifo(i + 1), fifo(i + 2), fifo(i + 3) % TWO_16)
  }

  function ReadTimestamp(fifo: nat -> Word32): Option<Timestamp> {
    match FindStart(fifo, 0)
    case None => None
    case Some(i) => Some(RecordAt(fifo, i))
  }

  /** The four words of a record; the last one has a reserved half. */
  predicate Encodes(fifo: nat -> Word32, i: nat, ts: Timestamp) {
    && ts.secondsHi < TWO_16 && ts.sequenceId < TWO_16
    && fifo(i) == START_OF_TS * TWO_16 + ts.secondsHi
    && fifo(i + 1) == ts.seconds
    && fifo(i + 2) == ts.nanoseconds
    && fifo(i + 3) % TWO_16 == ts.sequenceId
  }

  /** A record is recovered after at most three words that start no record, whatever its payload
      words; after four such words it is counted as lost. */
  lemma ResynchronisesWithin3(fifo: nat -> Word32, garbage: nat, ts: Timestamp)
    requires forall j | 0 <= j < garbage :: !IsStart(fifo(j))
    requires Encodes(fifo, garbage, ts)
    ensures garbage <= 3 ==> ReadTimestamp(fifo) == Some(ts)
    ensures garbage > 3 ==> ReadTimestamp(fifo) == None
  {
    assert fifo(garbage) / TWO_16 == START_OF_TS && fifo(garbage) % TWO_16 == ts.secondsHi;
  }

  // ------------------------------------------------------------------------------------------
  // One locked run of the correlation loop
  // ------------------------------------------------------------------------------------------

  /** The loop moves the heads from `p`, `t` until a pair matches or a ring runs empty.  With a hit
      the matching pair is the one just before the new heads. */
  datatype Section = Section(p: nat, t: nat, hit: bool)

  function Correlate(queued: seq<Packet>, p: nat, stamps: seq<Timestamp>, t: nat): (s: Section)
    requires p <= |queued| && t <= |stamps|
    ensures p <= s.p <= |queued| && t <= s.t <= |stamps|
    ensures s.hit ==> p < s.p && t < s.t && queued[s.p - 1].sequenceId == Some(stamps[s.t - 1].sequenceId)
    ensures !s.hit ==> s.p == |queued| || s.t == |stamps|
    ensures p < |queued| && t < |stamps| ==> p < s.p || t < s.t
    decreases |queued| - p + |stamps| - t
  {
    if p == |queued| || t == |stamps| then Section(p, t, false) else
    var d := Decide(queued[p], stamps[t]);
    var p', t' := if d.skbConsumed then p + 1 else p, if d.tsConsumed then t + 1 else t;
    if d.doStamp then Section(p', t', true) else Correlate(queued, p', stamps, t')
  }

  // ------------------------------------------------------------------------------------------
  // The step system
  // ------------------------------------------------------------------------------------------

  /** Where the worker is: not running, holding a matched pair outside the lock, or about to take
      the lock again. */
  datatype Worker = Idle | Holding(p: nat, t: nat) | Unlocked

  datatype Sys = Sys(
    queued: seq<Packet>, p: nat,
    stamps: seq<Timestamp>, t: nat,
    lost: nat, worker: Worker,
    delivered: seq<(nat, nat)>,
    inXmit: Option<Packet>,
    submitted: seq<Packet>, returned: seq<Packet>, freed: seq<Packet>)

  datatype Event =
    | Submit(packet: Packet)      // start_xmit is called
    | XmitBusy                    // the packet is handed back
    | XmitFree                    // an error, or transmitted without a timestamp
    | XmitQueue                   // transmitted and queued for its timestamp
    | Irq(fifo: nat -> Word32)     // a timestamp is read from the FIFO
    | WorkBegin                   // the worker starts: drain lost ones, correlate
    | Deliver                     // the matched timestamp is delivered, the packet freed
    | WorkResume                  // the worker takes the lock again and correlates
    | Flush                       // reset of both rings

  function Init(): Sys {
    Sys([], 0, [], 0, 0, Idle, [], None, [], [], [])
  }

  function HeldBy(worker: Worker, queued: seq<Packet>): seq<Packet> {
    if worker.Holding? && worker.p < |queued| then [queued[worker.p]] else []
  }

  function InXmit(s: Sys): seq<Packet> {
    if s.inXmit.Some? then [s.inXmit.value] else []
  }

  /** How often `x` occurs. */
  function Tally(q: seq<Packet>, x: Packet): nat {
    if q == [] then 0 else (if q[0] == x then 1 else 0) + Tally(q[1..], x)
  }

  /** Enter the locked loop with the heads at `p`, `t`; discarded packets are freed. */
  function RunSection(s: Sys): Sys
    requires s.p <= |s.queued| && s.t <= |s.stamps|
  {
    var c := Correlate(s.queued, s.p, s.stamps, s.t);
    var kept := if c.hit then c.p - 1 else c.p;
    s.(p := c.p, t := c.t,
       worker := if c.hit then Holding(c.p - 1, c.t - 1) else Idle,
       freed := s.freed + s.queued[s.p..kept])
  }

  /** Discard one waiting packet per lost timestamp. */
  function Drain(s: Sys): Sys
    requires s.p <= |s.queued|
  {
    var n := if s.lost < |s.queued| - s.p then s.lost else |s.queued| - s.p;
    s.(p := s.p + n, lost := s.lost - n, freed := s.freed + s.queued[s.p..s.p + n])
  }

  /** Queue a packet; a full ring first drops its oldest one. */
  function Enqueue(s: Sys, packet: Packet): Sys
    requires s.p <= |s.queued|
  {
    var full := |s.queued| - s.p == RING_SIZE - 1;
    s.(queued := s.queued + [packet],
       p := if full then s.p + 1 else s.p,
       freed := if full then s.freed + [s.queued[s.p]] else s.freed)
  }

  /** A full timestamp ring drops its oldest one before the FIFO is read; a record that is not found
      counts as lost, in 32 bits. */
  function Store(s: Sys, fifo: nat -> Word32): Sys
    requires s.t <= |s.stamps|
  {
    var t := if |s.stamps| - s.t == RING_SIZE - 1 then s.t + 1 else s.t;
    match ReadTimestamp(fifo)
    case None => s.(t := t, lost := (s.lost + 1) % TWO_32)
    case Some(ts) => s.(t := t, stamps := s.stamps + [ts])
  }

  predicate Enabled(s: Sys, e: Event) {
    match e
    case Submit(_) => s.inXmit.None?
    case XmitBusy => s.inXmit.Some?
    case XmitFree => s.inXmit.Some?
    case XmitQueue => s.inXmit.Some?
    case Irq(_) => true
    case WorkBegin => s.worker.Idle?
    case Deliver => s.worker.Holding?
    case WorkResume => s.worker.Unlocked?
    case Flush => true
  }

  function Next(s: Sys, e: Event): Sys
    requires RingsInv(s) && Enabled(s, e)
  {
    match e
    case Submit(packet) => s.(inXmit := Some(packet), submitted := s.submitted + [packet])
    case XmitBusy => s.(inXmit := None, returned := s.returned + [s.inXmit.value])
    case XmitFree => s.(inXmit := None, freed := s.freed + [s.inXmit.value])
    case XmitQueue => Enqueue(s, s.inXmit.value).(inXmit := None)
    case Irq(fifo) => Store(s, fifo)
    case WorkBegin => RunSection(Drain(s))
    case Deliver =>
      s.(worker := Unlocked, delivered := s.delivered + [(s.worker.p, s.worker.t)],
         freed := s.freed + [s.queued[s.worker.p]])
    case WorkResume => RunSection(s)
    case Flush =>
      s.(p := |s.queued|, t := |s.stamps|, lost := 0, freed := s.freed + s.queued[s.p..])
  }

  // ------------------------------------------------------------------------------------------
  // The invariant
  // ------------------------------------------------------------------------------------------

  predicate Matches(s: Sys, p: nat, t: nat) {
    p < s.p <= |s.queued| && t < s.t <= |s.stamps| && s.queued[p].sequenceId == Some(s.stamps[t].sequenceId)
  }

  /** Both rings in bounds, with one slot always free. */
  predicate RingsInv(s: Sys) {
    && s.p <= |s.queued| < s.p + RING_SIZE
    && s.t <= |s.stamps| < s.t + RING_SIZE
    && s.lost < TWO_32
    && (s.worker.Holding? ==> s.worker.p < s.p && s.worker.t < s.t)
  }

  type RingSys = s: Sys | RingsInv(s) witness Init()

  /** How often packet `x` is handed back, freed, in transmission, held by the worker or waiting. */
  function Places(s: Sys, x: Packet): nat
    requires s.p <= |s.queued|
  {
    Tally(s.returned, x) + Tally(s.freed, x) + Tally(InXmit(s), x) + Tally(HeldBy(s.worker, s.queued), x)
      + Tally(s.queued[s.p..], x)
  }

  /** Every packet ever submitted is in exactly one place. */
  ghost predicate Conserved(s: Sys)
    requires s.p <= |s.queued|
  {
    forall x :: Tally(s.submitted, x) == Places(s, x)
  }

  /** Deliveries pair equal ids and follow the order of both rings. */
  ghost predicate DeliveriesInv(s: Sys) {
    && (forall i | 0 <= i < |s.delivered| :: Matches(s, s.delivered[i].0, s.delivered[i].1))
    && (forall i, j | 0 <= i < j < |s.delivered| ::
          s.delivered[i].0 < s.delivered[j].0 && s.delivered[i].1 < s.delivered[j].1)
    && (s.worker.Holding? ==>
          && Matches(s, s.worker.p, s.worker.t)
          && forall i | 0 <= i < |s.delivered| :: s.delivered[i].0 < s.worker.p && s.delivered[i].1 < s.worker.t)
  }

  ghost predicate Inv(s: Sys) {
    RingsInv(s) && Conserved(s) && DeliveriesInv(s)
  }

  lemma {:induction false} TallyConcat(a: seq<Packet>, b: seq<Packet>, x: Packet)
    ensures Tally(a + b, x) == Tally(a, x) + Tally(b, x)
  {
    if a == [] {
      assert a + b == b;
    } else {
      TallyConcat(a[1..], b, x);
      assert (a + b)[1..] == a[1..] + b;
    }
  }

  lemma Split(q: seq<Packet>, a: nat, b: nat, x: Packet)
    requires a <= b <= |q|
    ensures Tally(q[a..], x) == Tally(q[a..b], x) + Tally(q[b..], x)
  {
    assert q[a..] == q[a..b] + q[b..];
    TallyConcat(q[a..b], q[b..], x);
  }

  lemma One(q: seq<Packet>, a: nat, x: Packet)
    requires a < |q|
    ensures Tally(q[a..], x) == Tally([q[a]], x) + Tally(q[a + 1..], x)
  {
    assert q[a..][1..] == q[a + 1..];
  }

  // --- rings -----------------------------------------------------------------------------------

  lemma NextKeepsRings(s: Sys, e: Event)
    requires RingsInv(s) && Enabled(s, e)
    ensures RingsInv(Next(s, e))
    ensures Extends(s, Next(s, e))
  {
  }

  /** Histories only grow and heads only advance. */
  ghost predicate Extends(s: Sys, s': Sys) {
    && s.queued <= s'.queued && s.stamps <= s'.stamps
    && s.p <= s'.p <= |s'.queued| && s.t <= s'.t <= |s'.stamps|
  }

  // --- conservation ----------------------------------------------------------------------------

  /** Zero when a packet is in as many places as it was submitted. */
  function Balance(s: Sys, x: Packet): int
    requires s.p <= |s.queued|
  {
    Places(s, x) - Tally(s.submitted, x)
  }

  lemma RunSectionConserves(s: Sys, x: Packet)
    requires RingsInv(s) && !s.worker.Holding?
    ensures Balance(RunSection(s), x) == Balance(s, x)
  {
    var c := Correlate(s.queued, s.p, s.stamps, s.t);
    var kept := if c.hit then c.p - 1 else c.p;
    var s' := RunSection(s);
    Split(s.queued, s.p, kept, x);
    TallyConcat(s.freed, s.queued[s.p..kept], x);
    assert Tally(s'.freed, x) + Tally(s.queued[kept..], x) == Tally(s.freed, x) + Tally(s.queued[s.p..], x);
    assert InXmit(s') == InXmit(s) && HeldBy(s.worker, s.queued) == [];
    HeldOrWaiting(s', kept, x);
  }

  /** A hit moves one packet from the ring into the hands of the worker. */
  lemma HeldOrWaiting(s: Sys, kept: nat, x: Packet)
    requires s.p <= |s.queued| && kept <= s.p
    requires if s.worker.Holding? then s.worker.p == kept && s.p == kept + 1 else s.p == kept
    ensures Tally(HeldBy(s.worker, s.queued), x) + Tally(s.queued[s.p..], x) == Tally(s.queued[kept..], x)
  {
    if s.worker.Holding? {
      One(s.queued, kept, x);
    }
  }

  lemma DrainConserves(s: Sys, x: Packet)
    requires RingsInv(s)
    ensures Balance(Drain(s), x) == Balance(s, x)
  {
    var s' := Drain(s);
    Split(s.queued, s.p, s'.p, x);
    TallyConcat(s.freed, s.queued[s.p..s'.p], x);
    assert Tally(s'.freed, x) + Tally(s'.queued[s'.p..], x) == Tally(s.freed, x) + Tally(s.queued[s.p..], x);
    assert InXmit(s') == InXmit(s) && HeldBy(s'.worker, s'.queued) == HeldBy(s.worker, s.queued);
  }

  /** A packet behind the queue, and the oldest one freed if the head moves. */
  lemma QueueTally(queued: seq<Packet>, p: nat, p': nat, freed: seq<Packet>, packet: Packet, x: Packet)
    requires p <= p' <= p + 1 && p' <= |queued|
    ensures Tally(freed + queued[p..p'], x) + Tally((queued + [packet])[p'..], x)
            == Tally(freed, x) + Tally(queued[p..], x) + Tally([packet], x)
  {
    Split(queued, p, p', x);
    TallyConcat(freed, queued[p..p'], x);
    AppendedTail(queued, p', packet);
    TallyConcat(queued[p'..], [packet], x);
  }

  lemma AppendedTail(q: seq<Packet>, p: nat, packet: Packet)
    requires p <= |q|
    ensures (q + [packet])[p..] == q[p..] + [packet]
  {
  }

  lemma EnqueueConserves(s: Sys, x: Packet)
    requires RingsInv(s) && s.inXmit.Some?
    ensures Balance(Next(s, XmitQueue), x) == Balance(s, x)
  {
    var s' := Next(s, XmitQueue);
    QueueTally(s.queued, s.p, s'.p, s.freed, s.inXmit.value, x);
    assert s'.freed == s.freed + s.queued[s.p..s'.p];
    assert InXmit(s) == [s.inXmit.value] && InXmit(s') == [];
    assert HeldBy(s'.worker, s'.queued) == HeldBy(s.worker, s.queued);
  }

  lemma TransmitConserves(s: Sys, e: Event, x: Packet)
    requires RingsInv(s) && Enabled(s, e) && (e.Submit? || e.XmitBusy? || e.XmitFree?)
    ensures Balance(Next(s, e), x) == Balance(s, x)
  {
    match e
    case Submit(packet) => TallyConcat(s.submitted, [packet], x);
    case XmitBusy => TallyConcat(s.returned, [s.inXmit.value], x);
    case XmitFree => TallyConcat(s.freed, [s.inXmit.value], x);
  }

  lemma DeliverConserves(s: Sys, x: Packet)
    requires RingsInv(s) && Enabled(s, Deliver)
    ensures Balance(Next(s, Deliver), x) == Balance(s, x)
  {
    TallyConcat(s.freed, [s.queued[s.worker.p]], x);
  }

  lemma FlushConserves(s: Sys, x: Packet)
    requires RingsInv(s)
    ensures Balance(Next(s, Flush), x) == Balance(s, x)
  {
    var s' := Next(s, Flush);
    TallyConcat(s.freed, s.queued[s.p..], x);
    assert s'.queued[s'.p..] == [];
    assert InXmit(s') == InXmit(s) && HeldBy(s'.worker, s'.queued) == HeldBy(s.worker, s.queued);
  }

  /** A step neither duplicates nor loses a packet; only a submission brings in a new one. */
  lemma NextConserves(s: Sys, e: Event, x: Packet)
    requires RingsInv(s) && Enabled(s, e)
    ensures Next(s, e).p <= |Next(s, e).queued|
    ensures Balance(Next(s, e), x) == Balance(s, x)
  {
    match e
    case XmitQueue => EnqueueConserves(s, x);
    case Irq(_) =>
    case WorkBegin =>
      DrainConserves(s, x);
      RunSectionConserves(Drain(s), x);
    case WorkResume => RunSectionConserves(s, x);
    case Deliver => DeliverConserves(s, x);
    case Flush => FlushConserves(s, x);
    case _ => TransmitConserves(s, e, x);
  }

  // --- deliveries ------------------------------------------------------------------------------

  lemma ExtendsDeliveries(s: Sys, s': Sys)
    requires DeliveriesInv(s) && Extends(s, s')
    requires s'.delivered == s.delivered && (s'.worker == s.worker || !s'.worker.Holding?)
    ensures DeliveriesInv(s')
  {
  }

  lemma RunSectionDelivers(s: Sys)
    requires RingsInv(s) && DeliveriesInv(s) && !s.worker.Holding?
    ensures DeliveriesInv(RunSection(s))
  {
  }

  lemma NextDelivers(s: Sys, e: Event)
    requires RingsInv(s) && DeliveriesInv(s) && Enabled(s, e)
    ensures DeliveriesInv(Next(s, e))
  {
    NextKeepsRings(s, e);
    match e
    case WorkBegin =>
      ExtendsDeliveries(s, Drain(s));
      RunSectionDelivers(Drain(s));
    case Deliver =>
    case WorkResume => RunSectionDelivers(s);
    case _ => ExtendsDeliveries(s, Next(s, e));
  }

  /** Every step keeps the invariant. */
  lemma NextKeeps(s: Sys, e: Event)
    requires Inv(s) && Enabled(s, e)
    ensures Inv(Next(s, e))
  {
    NextKeepsRings(s, e);
    NextDelivers(s, e);
    forall x ensures Tally(Next(s, e).submitted, x) == Places(Next(s, e), x) {
      NextConserves(s, e, x);
      assert Balance(s, x) == 0;
    }
  }
}
