/**
 The two rings as the driver holds them: arrays of 64 slots with read and write indices that wrap.
 Each method is one locked section and is proved to be one step of the system in `TxTimestamps`;
 every packet freed is recorded.
 */
module TimestampRings {
  import opened MachineWords
  import opened Options
  import opened TxTimestamps
  import opened TxTimestampRuns

  /** The number of occupied slots of a ring. */
  function Count(rd: nat, wr: nat): int {
    if wr >= rd then wr - rd else wr + RING_SIZE - rd
  }

  /** How far slot `j` is behind the read index. */
  function Position(rd: nat, j: nat): int {
    if j >= rd then j - rd else j + RING_SIZE - rd
  }

  /** Seconds to nanoseconds and the addition of nanoseconds, each in 64 bits. */
  method Stamp(ts: Timestamp) returns (hwtstamp: nat)
    ensures hwtstamp == HwTime(ts)
  {
    var seconds := ts.secondsHi * TWO_32 + ts.seconds;
    hwtstamp := seconds * NSEC % TWO_64;
    WrapsOnce(seconds * NSEC, ts.nanoseconds);
    hwtstamp := (hwtstamp + ts.nanoseconds) % TWO_64;
  }

  lemma RemainderUnique(x: int, k: int, r: int)
    requires x == k * TWO_64 + r && 0 <= r < TWO_64
    ensures x % TWO_64 == r
  {
  }

  /** Wrapping before an addition does not change the wrapped sum. */
  lemma WrapsOnce(a: nat, b: nat)
    ensures (a % TWO_64 + b) % TWO_64 == (a + b) % TWO_64
  {
    var r := (a % TWO_64 + b) % TWO_64;
    var k := a / TWO_64 + (a % TWO_64 + b) / TWO_64;
    assert a + b == k * TWO_64 + r;
    RemainderUnique(a + b, k, r);
  }

  /** The packet padded to the Ethernet minimum and two bytes, in whole words. */
  function AlignedLength(len: nat): nat {
    ((if len < 60 then 60 else len) + 2 + 3) / 4 * 4
  }

  /** The least multiple of four that holds two bytes of padding and a packet of the Ethernet minimum of
      60 bytes or more. */
  lemma AlignedIsLeast(len: nat, n: nat)
    ensures AlignedLength(len) % 4 == 0 && AlignedLength(len) >= len + 2 && AlignedLength(len) >= 62
    ensures n % 4 == 0 && n >= len + 2 && n >= 62 ==> AlignedLength(len) <= n
  {
  }

  /** Look for the start of a record in up to four words, then read the rest of it. */
  method ReadRecord(fifo: nat -> Word32) returns (r: Option<Timestamp>)
    ensures r == ReadTimestamp(fifo)
  {
    var words := 0;
    var ctr := 3;
    var sot: Word32 := 0;
    while ctr >= 0
      invariant 0 <= words <= 4 && ctr == 3 - words
      invariant FindStart(fifo, 0) == FindStart(fifo, words)
    {
      sot := fifo(words);
      words := words + 1;
      if sot / TWO_16 == START_OF_TS {
        break;
      }
      ctr := ctr - 1;
    }
    if ctr < 0 {
      return None;
    }
    r := Some(Timestamp(sot % TWO_16, fifo(words), fifo(words + 1), fifo(words + 2) % TWO_16));
  }

  class Rings {
    const skbPtr: array<Option<Packet>>
    var skbRd: nat
    var skbWr: nat
    const fpgaTs: array<Timestamp>
    var tsRd: nat
    var tsWr: nat
    var tsLost: nat
    ghost var sys: Sys
    ghost var kfreed: seq<Packet>

    /** The packet ring holds `queued[p..]`; every slot outside is empty. */
    ghost predicate PacketRing(queued: seq<Packet>, p: nat)
      reads this, skbPtr
    {
      && skbPtr.Length == RING_SIZE && skbRd < RING_SIZE && skbWr < RING_SIZE
      && p <= |queued| && Count(skbRd, skbWr) == |queued| - p
      && forall j | 0 <= j < RING_SIZE ::
           skbPtr[j] == if Position(skbRd, j) < |queued| - p then Some(queued[p + Position(skbRd, j)]) else None
    }

    /** The timestamp ring holds `stamps[t..]`. */
    ghost predicate StampRing(stamps: seq<Timestamp>, t: nat)
      reads this, fpgaTs
    {
      && fpgaTs.Length == RING_SIZE && tsRd < RING_SIZE && tsWr < RING_SIZE
      && t <= |stamps| && Count(tsRd, tsWr) == |stamps| - t
      && forall j | 0 <= j < RING_SIZE && Position(tsRd, j) < |stamps| - t ::
           fpgaTs[j] == stamps[t + Position(tsRd, j)]
    }

    /** What the code freed is what the step system says, packet by packet. */
    ghost predicate FreedAs(s: Sys)
      reads this
    {
      forall x :: Tally(kfreed, x) == Tally(s.freed, x)
    }

    ghost predicate Valid()
      reads this, skbPtr, fpgaTs
    {
      && RingsInv(sys)
      && PacketRing(sys.queued, sys.p)
      && StampRing(sys.stamps, sys.t)
      && tsLost == sys.lost
      && FreedAs(sys)
    }

    constructor ()
      ensures Valid() && sys == Init()
    {
      skbPtr := new Option<Packet>[RING_SIZE](_ => None);
      fpgaTs := new Timestamp[RING_SIZE](_ => Timestamp(0, 0, 0, 0));
      skbRd, skbWr, tsRd, tsWr, tsLost := 0, 0, 0, 0, 0;
      sys := Init();
      kfreed := [];
    }

    /** Freeing an empty slot does nothing. */
    method Kfree(skb: Option<Packet>)
      modifies this`kfreed
      ensures kfreed == old(kfreed) + if skb.Some? then [skb.value] else []
    {
      if skb.Some? {
        kfreed := kfreed + [skb.value];
      }
    }

    // --- the rings as queues ------------------------------------------------------------------

    method PushPacket(skb: Packet, ghost queued: seq<Packet>, ghost p: nat)
      requires PacketRing(queued, p) && |queued| - p < RING_SIZE - 1
      modifies this`skbWr, skbPtr
      ensures PacketRing(queued + [skb], p)
    {
      skbPtr[skbWr] := Some(skb);
      skbWr := (skbWr + 1) % RING_SIZE;
    }

    /** Take the packet at the head and clear its slot. */
    method PopPacket(ghost queued: seq<Packet>, ghost p: nat) returns (skb: Option<Packet>)
      requires PacketRing(queued, p) && p < |queued|
      modifies this`skbRd, skbPtr
      ensures PacketRing(queued, p + 1) && skb == Some(queued[p])
      ensures Count(skbRd, skbWr) == old(Count(skbRd, skbWr)) - 1
    {
      skb := skbPtr[skbRd];
      skbPtr[skbRd] := None;
      skbRd := (skbRd + 1) % RING_SIZE;
    }

    method PushStamp(ts: Timestamp, ghost stamps: seq<Timestamp>, ghost t: nat)
      requires StampRing(stamps, t) && |stamps| - t < RING_SIZE - 1
      modifies this`tsWr, fpgaTs
      ensures StampRing(stamps + [ts], t)
    {
      fpgaTs[tsWr] := ts;
      tsWr := (tsWr + 1) % RING_SIZE;
    }

    method PopStamp(ghost stamps: seq<Timestamp>, ghost t: nat)
      requires StampRing(stamps, t) && t < |stamps|
      modifies this`tsRd
      ensures StampRing(stamps, t + 1)
      ensures Count(tsRd, tsWr) == old(Count(tsRd, tsWr)) - 1
    {
      tsRd := (tsRd + 1) % RING_SIZE;
    }

    // --- transmit -------------------------------------------------------------------------------

    /** Recording one more freed packet on both sides. */
    lemma FreedOne(log: seq<Packet>, s: Sys, s': Sys, x: Packet)
      requires forall y :: Tally(log, y) == Tally(s.freed, y)
      requires kfreed == log + [x] && s'.freed == s.freed + [x]
      ensures FreedAs(s')
    {
      forall y ensures Tally(kfreed, y) == Tally(s'.freed, y) {
        TallyConcat(log, [x], y);
        TallyConcat(s.freed, [x], y);
      }
    }

    /** Queue a transmitted packet for its timestamp, dropping the oldest from a full ring. */
    method Queue(skb: Packet, wanted: bool) returns (queued: bool)
      requires Valid() && sys.inXmit == Some(skb)
      modifies this, skbPtr
      ensures Valid() && queued == wanted
      ensures sys == if wanted then Next(old(sys), XmitQueue) else old(sys)
    {
      if !wanted {
        return false;
      }
      DropOldest();
      ghost var s := sys;
      sys := Next(s, XmitQueue);
      PushPacket(skb, s.queued, sys.p);
      queued := true;
    }

    /** A full packet ring gives up its oldest packet; `sys` follows when the new one is queued. */
    method DropOldest()
      requires Valid() && sys.inXmit.Some?
      modifies this`skbRd, this`kfreed, skbPtr
      ensures var s := Next(sys, XmitQueue);
              PacketRing(sys.queued, s.p) && |sys.queued| - s.p < RING_SIZE - 1 && FreedAs(s)
    {
      if (skbWr + 1) % RING_SIZE == skbRd {
        var oldest := PopPacket(sys.queued, sys.p);
        Kfree(oldest);
        FreedOne(old(kfreed), sys, Next(sys, XmitQueue), sys.queued[sys.p]);
      }
    }

    /** Everything a call of start_xmit does with the packet.  `space` is the free space of the
        transmit FIFO, `copy` says whether the packet must be copied, and `memory` whether the
        buffer for that can be had. */
    method StartXmit(id: nat, data: seq<Byte>, copy: bool, memory: bool, space: nat, wanted: bool)
      returns (busy: bool)
      requires Valid() && sys.inXmit == None
      modifies this, skbPtr
      ensures Valid()
      ensures busy <==> |data| > 0 && !(copy && !memory) && space < AlignedLength(|data|)
      ensures var s := Next(old(sys), Submit(PacketOf(id, data)));
              sys == if |data| == 0 || (copy && !memory) then Next(s, XmitFree)
                     else if busy then Next(s, XmitBusy)
                     else if wanted then Next(s, XmitQueue)
                     else Next(s, XmitFree)
    {
      var skb := PacketOf(id, data);
      sys := Next(sys, Submit(skb));
      if |data| == 0 {
        FreeTransmitted(skb);
        return false;
      }
      if copy && !memory {
        FreeTransmitted(skb);
        return false;
      }
      if space < AlignedLength(|data|) {
        sys := Next(sys, XmitBusy);
        return true;
      }
      var queued := Queue(skb, wanted);
      if !queued {
        FreeTransmitted(skb);
      }
      busy := false;
    }

    method FreeTransmitted(skb: Packet)
      requires Valid() && sys.inXmit == Some(skb)
      modifies this`kfreed, this`sys
      ensures Valid() && sys == Next(old(sys), XmitFree)
    {
      Kfree(Some(skb));
      sys := Next(sys, XmitFree);
      FreedOne(old(kfreed), old(sys), sys, skb);
    }

    // --- interrupt ------------------------------------------------------------------------------

    /** Read one timestamp record; `fifo(i)` is the i-th word read. */
    method TsIrq(fifo: nat -> Word32)
      requires Valid()
      modifies this, fpgaTs
      ensures Valid() && sys == Next(old(sys), Irq(fifo))
    {
      MakeRoom();
      var ts := ReadRecord(fifo);
      Put(ts);
    }

    /** Store a record, or count it as lost. */
    method Put(ts: Option<Timestamp>)
      requires RingsInv(sys) && StampRing(sys.stamps, sys.t) && tsLost == sys.lost
      requires |sys.stamps| - sys.t < RING_SIZE - 1
      modifies this`tsWr, this`tsLost, this`sys, fpgaTs
      ensures RingsInv(sys) && StampRing(sys.stamps, sys.t) && tsLost == sys.lost
      ensures sys == if ts.Some? then old(sys).(stamps := old(sys).stamps + [ts.value])
                     else old(sys).(lost := (old(sys).lost + 1) % TWO_32)
    {
      if ts.None? {
        tsLost := (tsLost + 1) % TWO_32;
        sys := sys.(lost := tsLost);
      } else {
        PushStamp(ts.value, sys.stamps, sys.t);
        sys := sys.(stamps := sys.stamps + [ts.value]);
      }
    }

    /** A full timestamp ring drops its oldest entry. */
    method MakeRoom()
      requires RingsInv(sys) && StampRing(sys.stamps, sys.t)
      modifies this`tsRd, this`sys
      ensures RingsInv(sys) && StampRing(sys.stamps, sys.t)
      ensures |sys.stamps| - sys.t < RING_SIZE - 1
      ensures sys == old(sys).(t := if |old(sys).stamps| - old(sys).t == RING_SIZE - 1 then old(sys).t + 1
                                    else old(sys).t)
    {
      if (tsWr + 1) % RING_SIZE == tsRd {
        PopStamp(sys.stamps, sys.t);
        sys := sys.(t := sys.t + 1);
      }
    }

    // --- worker ---------------------------------------------------------------------------------

    /** Recording several freed packets on both sides. */
    lemma FreedMore(log: seq<Packet>, s: Sys, s': Sys, q: seq<Packet>)
      requires forall y :: Tally(log, y) == Tally(s.freed, y)
      requires kfreed == log + q && s'.freed == s.freed + q
      ensures FreedAs(s')
    {
      forall y ensures Tally(kfreed, y) == Tally(s'.freed, y) {
        TallyConcat(log, q, y);
        TallyConcat(s.freed, q, y);
      }
    }

    /** Discard the packets whose timestamps were lost. */
    method DrainLoop(ghost queued: seq<Packet>, ghost p0: nat) returns (ghost p: nat)
      requires PacketRing(queued, p0)
      modifies this`skbRd, this`tsLost, this`kfreed, skbPtr
      ensures p == p0 + if old(tsLost) < |queued| - p0 then old(tsLost) else |queued| - p0
      ensures PacketRing(queued, p) && tsLost == old(tsLost) - (p - p0)
      ensures kfreed == old(kfreed) + queued[p0..p]
    {
      p := p0;
      while tsLost > 0 && skbWr != skbRd
        invariant p0 <= p <= |queued| && PacketRing(queued, p)
        invariant tsLost + (p - p0) == old(tsLost)
        invariant kfreed == old(kfreed) + queued[p0..p]
      {
        var skb := PopPacket(queued, p);
        Kfree(skb);
        assert queued[p0..p + 1] == queued[p0..p] + [queued[p]];
        p := p + 1;
        tsLost := tsLost - 1;
      }
    }

    method DrainLost()
      requires Valid()
      modifies this, skbPtr
      ensures Valid() && sys == Drain(old(sys))
    {
      ghost var p := DrainLoop(sys.queued, sys.p);
      sys := Drain(sys);
      FreedMore(old(kfreed), old(sys), sys, sys.queued[old(sys).p..p]);
    }

    /** The correlation loop under the lock, up to the next match.  Every iteration consumes a
        packet or a timestamp, so the number of occupied slots goes down. */
    method MatchLoop(ghost queued: seq<Packet>, ghost p0: nat, ghost stamps: seq<Timestamp>, ghost t0: nat)
      returns (hit: Option<(Packet, Timestamp)>, ghost p: nat, ghost t: nat)
      requires PacketRing(queued, p0) && StampRing(stamps, t0)
      modifies this`skbRd, this`tsRd, this`kfreed, skbPtr
      ensures Section(p, t, hit.Some?) == Correlate(queued, p0, stamps, t0)
      ensures PacketRing(queued, p) && StampRing(stamps, t)
      ensures hit.Some? ==> hit.value == (queued[p - 1], stamps[t - 1])
      ensures kfreed == old(kfreed) + queued[p0..if hit.Some? then p - 1 else p]
    {
      hit, p, t := None, p0, t0;
      while skbWr != skbRd && tsWr != tsRd
        invariant p0 <= p <= |queued| && t0 <= t <= |stamps|
        invariant PacketRing(queued, p) && StampRing(stamps, t)
        invariant Correlate(queued, p0, stamps, t0) == Correlate(queued, p, stamps, t)
        invariant kfreed == old(kfreed) + queued[p0..p]
        invariant hit.None?
        decreases Count(skbRd, skbWr) + Count(tsRd, tsWr)
      {
        hit, p, t := MatchHeads(queued, p, stamps, t);
        if hit.Some? {
          break;
        }
      }
    }

    /** One iteration: decide about the two heads and consume accordingly. */
    method MatchHeads(ghost queued: seq<Packet>, ghost p0: nat, ghost stamps: seq<Timestamp>, ghost t0: nat)
      returns (hit: Option<(Packet, Timestamp)>, ghost p: nat, ghost t: nat)
      requires PacketRing(queued, p0) && StampRing(stamps, t0) && p0 < |queued| && t0 < |stamps|
      modifies this`skbRd, this`tsRd, this`kfreed, skbPtr
      ensures var d := Decide(queued[p0], stamps[t0]);
              && p == (if d.skbConsumed then p0 + 1 else p0)
              && t == (if d.tsConsumed then t0 + 1 else t0)
              && hit == (if d.doStamp then Some((queued[p0], stamps[t0])) else None)
              && kfreed == old(kfreed) + (if d.skbConsumed && !d.doStamp then [queued[p0]] else [])
      ensures PacketRing(queued, p) && StampRing(stamps, t)
      ensures Count(skbRd, skbWr) + Count(tsRd, tsWr) < old(Count(skbRd, skbWr) + Count(tsRd, tsWr))
    {
      hit, p, t := None, p0, t0;
      var skb, ts := skbPtr[skbRd], fpgaTs[tsRd];
      assert skb == Some(queued[p0]) && ts == stamps[t0];
      var d := Decide(skb.value, ts);
      if d.skbConsumed {
        var _ := PopPacket(queued, p0);
        p := p0 + 1;
      }
      if d.tsConsumed {
        PopStamp(stamps, t0);
        t := t0 + 1;
      }
      if d.doStamp {
        hit := Some((skb.value, ts));
      } else if d.skbConsumed {
        Kfree(skb);
      }
    }

    method CorrelateLoop() returns (hit: Option<(Packet, Timestamp)>)
      requires Valid() && !sys.worker.Holding?
      modifies this, skbPtr
      ensures Valid() && sys == RunSection(old(sys))
      ensures hit == if sys.worker.Holding? then Some((sys.queued[sys.worker.p], sys.stamps[sys.worker.t])) else None
    {
      ghost var p, t;
      hit, p, t := MatchLoop(sys.queued, sys.p, sys.stamps, sys.t);
      sys := RunSection(sys);
      FreedMore(old(kfreed), old(sys), sys, sys.queued[old(sys).p..if hit.Some? then p - 1 else p]);
    }

    /** The worker up to its first match: the lost ones first. */
    method WorkBegins() returns (hit: Option<(Packet, Timestamp)>)
      requires Valid() && sys.worker.Idle?
      modifies this, skbPtr
      ensures Valid() && sys == Next(old(sys), WorkBegin)
      ensures hit == if sys.worker.Holding? then Some((sys.queued[sys.worker.p], sys.stamps[sys.worker.t])) else None
    {
      DrainLost();
      hit := CorrelateLoop();
    }

    /** The worker takes the lock again, up to its next match. */
    method WorkResumes() returns (hit: Option<(Packet, Timestamp)>)
      requires Valid() && sys.worker.Unlocked?
      modifies this, skbPtr
      ensures Valid() && sys == Next(old(sys), WorkResume)
      ensures hit == if sys.worker.Holding? then Some((sys.queued[sys.worker.p], sys.stamps[sys.worker.t])) else None
    {
      hit := CorrelateLoop();
    }

    /** Outside the lock: hand the time to the socket, then free the packet. */
    method Delivers(skb: Packet, ts: Timestamp) returns (hwtstamp: nat)
      requires Valid() && sys.worker.Holding?
      requires (skb, ts) == (sys.queued[sys.worker.p], sys.stamps[sys.worker.t])
      modifies this`kfreed, this`sys
      ensures Valid() && sys == Next(old(sys), Deliver)
      ensures hwtstamp == HwTime(ts)
    {
      hwtstamp := Stamp(ts);
      Kfree(Some(skb));
      sys := Next(sys, Deliver);
      FreedOne(old(kfreed), old(sys), sys, skb);
    }

    /** The whole worker function, when nothing interferes while it is unlocked. */
    method Work()
      requires Valid() && sys.worker.Idle?
      modifies this, skbPtr
      ensures Valid() && sys == Finish(Begin(old(sys)))
    {
      var hit := WorkBegins();
      while hit.Some?
        invariant Valid() && Finish(sys) == Finish(Begin(old(sys)))
        invariant !sys.worker.Unlocked?
        invariant hit == if sys.worker.Holding? then Some((sys.queued[sys.worker.p], sys.stamps[sys.worker.t]))
                         else None
        decreases |sys.queued| - sys.p, if hit.Some? then 1 else 0
      {
        ghost var s := sys;
        var _ := Delivers(hit.value.0, hit.value.1);
        hit := WorkResumes();
        assert sys == Advance(s);
      }
    }

    // --- reset ----------------------------------------------------------------------------------

    /** Free every slot in slot order, and start over with empty rings. */
    method Flushes()
      requires Valid()
      modifies this, skbPtr
      ensures Valid() && sys == Next(old(sys), Flush)
      ensures skbRd == 0 && skbWr == 0 && tsRd == 0 && tsWr == 0 && tsLost == 0
    {
      ghost var slots := skbPtr[..];
      FreeSlots();
      forall x ensures Tally(kfreed, x) == Tally(sys.freed + sys.queued[sys.p..], x) {
        RingTally(slots, sys.queued, sys.p, skbRd, x);
        TallyConcat(old(kfreed), Waiting(slots, RING_SIZE), x);
        TallyConcat(sys.freed, sys.queued[sys.p..], x);
      }
      skbRd, skbWr, tsRd, tsWr, tsLost := 0, 0, 0, 0, 0;
      sys := Next(sys, Flush);
    }

    method FreeSlots()
      requires skbPtr.Length == RING_SIZE
      modifies this`kfreed, skbPtr
      ensures forall j | 0 <= j < RING_SIZE :: skbPtr[j] == None
      ensures kfreed == old(kfreed) + Waiting(old(skbPtr[..]), RING_SIZE)
    {
      for i := 0 to RING_SIZE
        invariant forall j | 0 <= j < i :: skbPtr[j] == None
        invariant forall j | i <= j < RING_SIZE :: skbPtr[j] == old(skbPtr[..])[j]
        invariant kfreed == old(kfreed) + Waiting(old(skbPtr[..]), i)
      {
        Kfree(skbPtr[i]);
        skbPtr[i] := None;
      }
    }
  }

  // ------------------------------------------------------------------------------------------
  // Slot order and ring order
  // ------------------------------------------------------------------------------------------

  /** The packets in the first `i` slots, in slot order. */
  function Waiting(slots: seq<Option<Packet>>, i: nat): seq<Packet>
    requires i <= |slots|
  {
    if i == 0 then [] else Waiting(slots, i - 1) + if slots[i - 1].Some? then [slots[i - 1].value] else []
  }

  ghost predicate RingOf(slots: seq<Option<Packet>>, queued: seq<Packet>, p: nat, rd: nat) {
    && |slots| == RING_SIZE && rd < RING_SIZE && p <= |queued| < p + RING_SIZE
    && forall j | 0 <= j < RING_SIZE ::
         slots[j] == if Position(rd, j) < |queued| - p then Some(queued[p + Position(rd, j)]) else None
  }

  function Min(a: int, b: int): int {
    if a < b then a else b
  }

  /** What the first `i` slots hold of the ring: the wrapped-around end, then the beginning. */
  ghost function Wrapped(queued: seq<Packet>, p: nat, rd: nat, i: nat): seq<Packet>
    requires p <= |queued| < p + RING_SIZE && rd < RING_SIZE && i <= RING_SIZE
  {
    var n := |queued| - p;
    var low := if rd + n > RING_SIZE then queued[p + RING_SIZE - rd..][..Min(i, rd + n - RING_SIZE)] else [];
    var high := if i > rd then queued[p..][..Min(i - rd, n)] else [];
    low + high
  }

  lemma {:induction false} WaitingIsWrapped(slots: seq<Option<Packet>>, queued: seq<Packet>, p: nat, rd: nat, i: nat)
    requires RingOf(slots, queued, p, rd) && i <= RING_SIZE
    ensures Waiting(slots, i) == Wrapped(queued, p, rd, i)
  {
    if i > 0 {
      WaitingIsWrapped(slots, queued, p, rd, i - 1);
    }
  }

  /** Freeing in slot order frees what waits in the ring. */
  lemma RingTally(slots: seq<Option<Packet>>, queued: seq<Packet>, p: nat, rd: nat, x: Packet)
    requires RingOf(slots, queued, p, rd)
    ensures Tally(Waiting(slots, RING_SIZE), x) == Tally(queued[p..], x)
  {
    WaitingIsWrapped(slots, queued, p, rd, RING_SIZE);
    var n := |queued| - p;
    if rd + n > RING_SIZE {
      var low, high := queued[p + RING_SIZE - rd..], queued[p..][..RING_SIZE - rd];
      assert Waiting(slots, RING_SIZE) == low + high;
      assert queued[p..] == high + low;
      TallyConcat(low, high, x);
      TallyConcat(high, low, x);
    } else {
      assert Waiting(slots, RING_SIZE) == queued[p..];
    }
  }
}
