/**
 What comes into the two rings: every timestamp record the interrupt finds and every packet queued by
 transmit, in order, and what each step does to those that wait.
 */
module TxTimestampArrivals {
  import opened MachineWords
  import opened Options
  import opened TxTimestamps
  import opened TxTimestampRuns

  // ------------------------------------------------------------------------------------------
  // Records in the FIFO
  // ------------------------------------------------------------------------------------------

  /** The FIFO carries a record, behind at most three words that start none. */
  ghost predicate Carries(fifo: nat -> Word32, ts: Timestamp) {
    exists g: nat :: g <= 3 && Encodes(fifo, g, ts) && forall j | 0 <= j < g :: !IsStart(fifo(j))
  }

  lemma CarriedIsRead(fifo: nat -> Word32, ts: Timestamp)
    requires Carries(fifo, ts)
    ensures ReadTimestamp(fifo) == Some(ts)
  {
    var g: nat :| g <= 3 && Encodes(fifo, g, ts) && forall j | 0 <= j < g :: !IsStart(fifo(j));
    ResynchronisesWithin3(fifo, g, ts);
  }

  /** What is read is exactly what is carried. */
  lemma ReadIsCarried(fifo: nat -> Word32, ts: Timestamp)
    ensures ReadTimestamp(fifo) == Some(ts) <==> Carries(fifo, ts)
  {
    if ReadTimestamp(fifo) == Some(ts) {
      var i := FindStart(fifo, 0).value;
      assert Encodes(fifo, i, ts);
    }
    if Carries(fifo, ts) {
      CarriedIsRead(fifo, ts);
    }
  }

  // ------------------------------------------------------------------------------------------
  // Over whole runs
  // ------------------------------------------------------------------------------------------

  /** An interrupt that finds a record. */
  ghost predicate Finds(e: Event) {
    e.Irq? && exists ts :: Carries(e.fifo, ts)
  }

  /** `stamps` are the records carried by the interrupts of the run, in order. */
  ghost predicate Recorded(events: seq<Event>, stamps: seq<Timestamp>)
    decreases |events|
  {
    if events == [] then stamps == []
    else if Finds(events[0]) then
      && stamps != [] && Carries(events[0].fifo, stamps[0])
      && Recorded(events[1..], stamps[1..])
    else Recorded(events[1..], stamps)
  }

  lemma DoRings(s: RingSys, e: Event)
    ensures RingsInv(Do(s, e))
  {
    if Enabled(s, e) {
      NextKeepsRings(s, e);
    }
  }

  /** What the interrupts of a run read. */
  function Read(events: seq<Event>): seq<Timestamp>
    decreases |events|
  {
    if events == [] then [] else ReadBy(events[0]) + Read(events[1..])
  }

  function ReadBy(e: Event): seq<Timestamp> {
    if !e.Irq? then [] else
    match ReadTimestamp(e.fifo)
    case None => []
    case Some(ts) => [ts]
  }

  lemma ReadIsFound(e: Event)
    ensures if Finds(e) then |ReadBy(e)| == 1 && Carries(e.fifo, ReadBy(e)[0]) else ReadBy(e) == []
  {
    if e.Irq? {
      match ReadTimestamp(e.fifo)
      case Some(ts) => ReadIsCarried(e.fifo, ts);
      case None =>
        forall ts ensures !Carries(e.fifo, ts) {
          ReadIsCarried(e.fifo, ts);
        }
    }
  }

  lemma {:induction false} ReadIsRecorded(events: seq<Event>)
    ensures Recorded(events, Read(events))
    decreases |events|
  {
    if events != [] {
      ReadIsRecorded(events[1..]);
      ReadIsFound(events[0]);
      RecordedFirst(events, ReadBy(events[0]), Read(events[1..]));
    }
  }

  lemma StepReads(s: RingSys, e: Event)
    ensures RingsInv(Do(s, e)) && Do(s, e).stamps == s.stamps + ReadBy(e)
  {
    DoRings(s, e);
  }

  lemma {:induction false} RunReads(s: RingSys, events: seq<Event>)
    ensures Exec(s, events).stamps == s.stamps + Read(events)
    decreases |events|
  {
    if events != [] {
      StepReads(s, events[0]);
      RunReads(Do(s, events[0]), events[1..]);
    }
  }

  lemma RecordedFirst(events: seq<Event>, first: seq<Timestamp>, rest: seq<Timestamp>)
    requires events != [] && Recorded(events[1..], rest)
    requires if Finds(events[0]) then |first| == 1 && Carries(events[0].fifo, first[0]) else first == []
    ensures Recorded(events, first + rest)
  {
    if first == [] {
      assert first + rest == rest;
    } else {
      assert (first + rest)[1..] == rest && (first + rest)[0] == first[0];
    }
  }

  /** In every interleaving the timestamps ever stored are exactly the records that the interrupts found
      in the FIFO, in order. */
  lemma StampsAreRecorded(events: seq<Event>)
    ensures Recorded(events, Exec(Init(), events).stamps)
  {
    RunReads(Init(), events);
    assert [] + Read(events) == Read(events);
    ReadIsRecorded(events);
  }

  /** The packets a run hands to the ring: those submitted and then queued.  `current` is the packet in
      transmission when the run begins. */
  function Handed(current: Option<Packet>, events: seq<Event>): seq<Packet>
    decreases |events|
  {
    if events == [] then [] else
    match events[0]
    case Submit(packet) => Handed(if current.None? then Some(packet) else current, events[1..])
    case XmitBusy => Handed(None, events[1..])
    case XmitFree => Handed(None, events[1..])
    case XmitQueue => (if current.Some? then [current.value] else []) + Handed(None, events[1..])
    case _ => Handed(current, events[1..])
  }

  lemma {:induction false} RunQueues(s: RingSys, events: seq<Event>)
    ensures Exec(s, events).queued == s.queued + Handed(s.inXmit, events)
    decreases |events|
  {
    if events != [] {
      var s' := Do(s, events[0]);
      DoRings(s, events[0]);
      RunQueues(s', events[1..]);
      if events[0].XmitQueue? && s.inXmit.Some? {
        assert s'.queued == s.queued + [s.inXmit.value];
      } else {
        assert s'.queued == s.queued;
      }
    }
  }

  /** In every interleaving the packets ever queued are exactly those that transmit handed over, in order. */
  lemma PacketsAreQueued(events: seq<Event>)
    ensures Exec(Init(), events).queued == Handed(None, events)
  {
    RunQueues(Init(), events);
  }

  // ------------------------------------------------------------------------------------------
  // Step by step
  // ------------------------------------------------------------------------------------------

  function WaitingPackets(s: RingSys): seq<Packet> {
    s.queued[s.p..]
  }

  function WaitingStamps(s: RingSys): seq<Timestamp> {
    s.stamps[s.t..]
  }

  /** A full ring of 63 gives up its oldest entry. */
  function MadeRoom<T>(q: seq<T>): seq<T> {
    if |q| == 63 then q[1..] else q
  }

  /** After an interrupt those wait that waited, without the oldest of a full ring, and then the record
      the FIFO carried; if it carried none, one more counts as lost.  Packets are not touched. */
  lemma IrqStores(s: RingSys, fifo: nat -> Word32)
    ensures var s' := Next(s, Irq(fifo));
            && WaitingPackets(s') == WaitingPackets(s)
            && (forall ts | Carries(fifo, ts) ::
                  WaitingStamps(s') == MadeRoom(WaitingStamps(s)) + [ts] && s'.lost == s.lost)
            && ((forall ts :: !Carries(fifo, ts)) ==>
                  WaitingStamps(s') == MadeRoom(WaitingStamps(s)) && s'.lost == (s.lost + 1) % TWO_32)
  {
    var s' := Next(s, Irq(fifo));
    forall ts | Carries(fifo, ts)
      ensures WaitingStamps(s') == MadeRoom(WaitingStamps(s)) + [ts] && s'.lost == s.lost
    {
      CarriedIsRead(fifo, ts);
    }
    if forall ts :: !Carries(fifo, ts) {
      if ReadTimestamp(fifo).Some? {
        ReadIsCarried(fifo, ReadTimestamp(fifo).value);
      }
    }
  }

  /** After queueing those wait that waited, without the oldest of a full ring, which is freed, and then
      the packet.  Timestamps are not touched. */
  lemma QueueStores(s: RingSys)
    requires s.inXmit.Some?
    ensures var s' := Next(s, XmitQueue);
            && WaitingPackets(s') == MadeRoom(WaitingPackets(s)) + [s.inXmit.value]
            && s'.freed == s.freed + WaitingPackets(s)[..|WaitingPackets(s)| - |MadeRoom(WaitingPackets(s))|]
            && WaitingStamps(s') == WaitingStamps(s) && s'.lost == s.lost && s'.inXmit == None
  {
  }

  /** Lost timestamps are made good with the oldest packets, one for one, until either runs out. */
  lemma DrainBalances(s: RingSys)
    ensures var s' := Drain(s);
            && (s'.lost == 0 || WaitingPackets(s') == [])
            && s.lost - s'.lost == |WaitingPackets(s)| - |WaitingPackets(s')| >= 0
            && WaitingPackets(s) == WaitingPackets(s)[..s.lost - s'.lost] + WaitingPackets(s')
            && s'.freed == s.freed + WaitingPackets(s)[..s.lost - s'.lost]
            && WaitingStamps(s') == WaitingStamps(s)
  {
    var s' := Drain(s);
    var n := s.lost - s'.lost;
    assert s.queued[s.p..][..n] == s.queued[s.p..s.p + n];
    assert s.queued[s.p..] == s.queued[s.p..s.p + n] + s.queued[s.p + n..];
  }

  /** Nothing waits after a reset, and what waited is freed, in order. */
  lemma FlushEmpties(s: RingSys)
    ensures var s' := Next(s, Flush);
            && WaitingPackets(s') == [] && WaitingStamps(s') == [] && s'.lost == 0
            && s'.freed == s.freed + WaitingPackets(s)
            && s'.worker == s.worker && s'.delivered == s.delivered
  {
  }
}
