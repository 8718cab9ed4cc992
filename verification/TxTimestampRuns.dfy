/**
 Transmit timestamps over whole runs: where packets are, which stamps are delivered, and what one
 undisturbed run of the worker finds.
 */
module TxTimestampRuns {
  import opened Options
  import opened TxTimestamps

  /** A step that is not enabled does not happen. */
  function Do(s: Sys, e: Event): Sys {
    if RingsInv(s) && Enabled(s, e) then Next(s, e) else s
  }

  /** Any interleaving of transmit, interrupt, worker and flush. */
  function Exec(s: Sys, events: seq<Event>): Sys
    decreases |events|
  {
    if events == [] then s else Exec(Do(s, events[0]), events[1..])
  }

  lemma {:induction false} ExecKeeps(s: Sys, events: seq<Event>)
    requires Inv(s)
    ensures Inv(Exec(s, events))
    decreases |events|
  {
    if events != [] {
      if Enabled(s, events[0]) {
        NextKeeps(s, events[0]);
      }
      ExecKeeps(Do(s, events[0]), events[1..]);
    }
  }

  lemma InitKeeps()
    ensures Inv(Init())
  {
  }

  /** Under every interleaving, and however often a packet is submitted again after it was handed back,
      no submission is lost or duplicated. */
  lemma PacketsConserved(events: seq<Event>, x: Packet)
    ensures var s := Exec(Init(), events);
            && s.p <= |s.queued|
            && Tally(s.submitted, x) ==
               Tally(s.returned, x) + Tally(s.freed, x) + Tally(InXmit(s), x)
               + Tally(HeldBy(s.worker, s.queued), x) + Tally(s.queued[s.p..], x)
  {
    InitKeeps();
    ExecKeeps(Init(), events);
    assert Tally(Exec(Init(), events).submitted, x) == Places(Exec(Init(), events), x);
  }

  /** A packet submitted once more than it was handed back as busy is in exactly one place: freed once,
      in transmission, held by the worker, or waiting in the ring. */
  lemma PacketInOnePlace(events: seq<Event>, x: Packet)
    requires var s := Exec(Init(), events); Tally(s.submitted, x) == Tally(s.returned, x) + 1
    ensures var s := Exec(Init(), events);
            && s.p <= |s.queued|
            && Tally(s.freed, x) + Tally(InXmit(s), x)
               + Tally(HeldBy(s.worker, s.queued), x) + Tally(s.queued[s.p..], x) == 1
  {
    PacketsConserved(events, x);
  }

  /** Under every interleaving each delivered stamp pairs equal sequence ids. */
  lemma StampsPairIds(events: seq<Event>, i: nat)
    requires i < |Exec(Init(), events).delivered|
    ensures var s := Exec(Init(), events);
            var (p, t) := s.delivered[i];
            && p < |s.queued| && t < |s.stamps|
            && s.queued[p].sequenceId == Some(s.stamps[t].sequenceId)
  {
    InitKeeps();
    ExecKeeps(Init(), events);
    var s := Exec(Init(), events);
    assert Matches(s, s.delivered[i].0, s.delivered[i].1);
  }

  /** No packet and no timestamp is delivered twice, and deliveries follow the order of both rings. */
  lemma StampsInOrder(events: seq<Event>, i: nat, j: nat)
    requires i < j < |Exec(Init(), events).delivered|
    ensures var s := Exec(Init(), events);
            s.delivered[i].0 < s.delivered[j].0 && s.delivered[i].1 < s.delivered[j].1
  {
    InitKeeps();
    ExecKeeps(Init(), events);
  }

  // ------------------------------------------------------------------------------------------
  // One undisturbed run of the worker
  // ------------------------------------------------------------------------------------------

  /** The pairs an undisturbed run of the worker finds, one decision at a time. */
  function Merge(queued: seq<Packet>, p: nat, stamps: seq<Timestamp>, t: nat): seq<(nat, nat)>
    requires p <= |queued| && t <= |stamps|
    decreases |queued| - p + |stamps| - t
  {
    if p == |queued| || t == |stamps| then [] else
    var d := Decide(queued[p], stamps[t]);
    var rest := Merge(queued, if d.skbConsumed then p + 1 else p, stamps, if d.tsConsumed then t + 1 else t);
    if d.doStamp then [(p, t)] + rest else rest
  }

  /** What is found is found section by section: the pair of the next locked section, then the rest. */
  lemma {:induction false} MergeBySections(queued: seq<Packet>, p: nat, stamps: seq<Timestamp>, t: nat)
    requires p <= |queued| && t <= |stamps|
    ensures var c := Correlate(queued, p, stamps, t);
            Merge(queued, p, stamps, t) ==
            if c.hit then [(c.p - 1, c.t - 1)] + Merge(queued, c.p, stamps, c.t) else []
    decreases |queued| - p + |stamps| - t
  {
    if p < |queued| && t < |stamps| {
      var d := Decide(queued[p], stamps[t]);
      if !d.doStamp {
        MergeBySections(queued, if d.skbConsumed then p + 1 else p, stamps, if d.tsConsumed then t + 1 else t);
      }
    }
  }

  ghost predicate Increasing(queued: seq<Packet>, p: nat, stamps: seq<Timestamp>, t: nat) {
    && (forall i | p <= i < |queued| :: queued[i].sequenceId.Some?)
    && (forall i, j | p <= i < j < |queued| && queued[i].sequenceId.Some? && queued[j].sequenceId.Some? ::
          queued[i].sequenceId.value < queued[j].sequenceId.value)
    && (forall i, j | t <= i < j < |stamps| :: stamps[i].sequenceId < stamps[j].sequenceId)
  }

  lemma {:induction false} MergeBounds(queued: seq<Packet>, p: nat, stamps: seq<Timestamp>, t: nat, m: (nat, nat))
    requires p <= |queued| && t <= |stamps| && m in Merge(queued, p, stamps, t)
    ensures p <= m.0 < |queued| && t <= m.1 < |stamps|
    decreases |queued| - p + |stamps| - t
  {
    if p < |queued| && t < |stamps| {
      var d := Decide(queued[p], stamps[t]);
      if m != (p, t) {
        MergeBounds(queued, if d.skbConsumed then p + 1 else p, stamps, if d.tsConsumed then t + 1 else t, m);
      }
    }
  }

  /** With strictly increasing ids in both rings and packets that all carry one, a run of the worker
      finds exactly the pairs with equal ids. */
  lemma {:induction false} MergeFinds(queued: seq<Packet>, p: nat, stamps: seq<Timestamp>, t: nat, i: nat, j: nat)
    requires Increasing(queued, p, stamps, t)
    requires p <= i < |queued| && t <= j < |stamps|
    ensures (i, j) in Merge(queued, p, stamps, t) <==> queued[i].sequenceId == Some(stamps[j].sequenceId)
    decreases |queued| - p + |stamps| - t
  {
    var d := Decide(queued[p], stamps[t]);
    var p', t' := if d.skbConsumed then p + 1 else p, if d.tsConsumed then t + 1 else t;
    if i >= p' && j >= t' {
      MergeFinds(queued, p', stamps, t', i, j);
    } else if (i, j) in Merge(queued, p', stamps, t') {
      MergeBounds(queued, p', stamps, t', (i, j));
    }
  }

  /** Where the worker stands after a locked section. */
  predicate After(queued: seq<Packet>, p: nat, stamps: seq<Timestamp>, t: nat, worker: Worker, p': nat, t': nat)
    requires p <= |queued| && t <= |stamps|
  {
    var c := Correlate(queued, p, stamps, t);
    p' == c.p && t' == c.t && worker == if c.hit then Holding(c.p - 1, c.t - 1) else Idle
  }

  lemma MergeAfter(queued: seq<Packet>, p: nat, stamps: seq<Timestamp>, t: nat, worker: Worker, p': nat, t': nat)
    requires p <= |queued| && t <= |stamps| && After(queued, p, stamps, t, worker, p', t')
    ensures p' <= |queued| && t' <= |stamps|
    ensures Merge(queued, p, stamps, t) ==
            if worker.Holding? then [(worker.p, worker.t)] + Merge(queued, p', stamps, t') else []
  {
    MergeBySections(queued, p, stamps, t);
  }

  /** The two steps from one match to the next. */
  function Advance(s: RingSys): (r: RingSys)
    requires s.worker.Holding?
    ensures r.queued == s.queued && r.stamps == s.stamps
    ensures r.delivered == s.delivered + [(s.worker.p, s.worker.t)]
    ensures After(s.queued, s.p, s.stamps, s.t, r.worker, r.p, r.t) && (r.worker.Holding? ==> s.p < r.p)
  {
    Next(Next(s, Deliver), WorkResume)
  }

  /** The remaining steps of a worker that is not disturbed. */
  function Finish(s: RingSys): (r: RingSys)
    decreases |s.queued| - s.p
  {
    if !s.worker.Holding? then s else
    var s' := Advance(s);
    if s'.worker.Holding? then Finish(s') else s'
  }

  /** The pairs a worker will still deliver if it is not disturbed. */
  function Remaining(s: RingSys): seq<(nat, nat)> {
    if s.worker.Holding? then [(s.worker.p, s.worker.t)] + Merge(s.queued, s.p, s.stamps, s.t) else []
  }

  lemma AdvanceDelivers(s: RingSys, s': RingSys)
    requires s.worker.Holding?
    requires s'.queued == s.queued && s'.stamps == s.stamps
    requires s'.delivered == s.delivered + [(s.worker.p, s.worker.t)]
    requires After(s.queued, s.p, s.stamps, s.t, s'.worker, s'.p, s'.t)
    ensures s'.delivered + Remaining(s') == s.delivered + Remaining(s)
  {
    MergeAfter(s.queued, s.p, s.stamps, s.t, s'.worker, s'.p, s'.t);
    var first, rest := [(s.worker.p, s.worker.t)], Remaining(s');
    assert rest == Merge(s.queued, s.p, s.stamps, s.t);
    assert s.delivered + first + rest == s.delivered + (first + rest);
  }

  lemma {:induction false} FinishDelivers(s: RingSys)
    requires !s.worker.Unlocked?
    ensures Finish(s).worker.Idle?
    ensures Finish(s).delivered == s.delivered + Remaining(s)
    decreases |s.queued| - s.p
  {
    if s.worker.Holding? {
      AdvanceDelivers(s, Advance(s));
      if Advance(s).worker.Holding? {
        FinishDelivers(Advance(s));
      }
    }
  }

  function Begin(s: RingSys): (b: RingSys)
    requires s.worker.Idle?
    ensures b.queued == s.queued && b.stamps == s.stamps && b.delivered == s.delivered
    ensures After(s.queued, Drain(s).p, s.stamps, s.t, b.worker, b.p, b.t)
  {
    Next(s, WorkBegin)
  }

  /** A run of the worker that is not disturbed ends idle and delivers exactly what `Merge` finds
      behind the packets drained for lost timestamps. */
  lemma WorkDelivers(s: RingSys)
    requires s.worker.Idle?
    ensures Finish(Begin(s)).worker.Idle?
    ensures Finish(Begin(s)).delivered == s.delivered + Merge(s.queued, Drain(s).p, s.stamps, s.t)
    ensures s.lost == 0 ==> Drain(s).p == s.p
  {
    var b := Begin(s);
    MergeAfter(s.queued, Drain(s).p, s.stamps, s.t, b.worker, b.p, b.t);
    FinishDelivers(b);
  }

  /** Merge completeness: with nothing lost, nothing arriving and strictly increasing ids, one run of
      the worker stamps exactly the waiting packets whose id is among the waiting timestamps. */
  lemma WorkIsComplete(s: RingSys, i: nat, j: nat)
    requires s.worker.Idle? && s.lost == 0 && Increasing(s.queued, s.p, s.stamps, s.t)
    requires s.p <= i < |s.queued| && s.t <= j < |s.stamps|
    ensures var after := Finish(Begin(s)).delivered;
            && s.delivered <= after
            && ((i, j) in after[|s.delivered|..] <==> s.queued[i].sequenceId == Some(s.stamps[j].sequenceId))
  {
    WorkDelivers(s);
    MergeFinds(s.queued, s.p, s.stamps, s.t, i, j);
    assert Finish(Begin(s)).delivered[|s.delivered|..] == Merge(s.queued, s.p, s.stamps, s.t);
  }

  // ------------------------------------------------------------------------------------------
  // What a run of the worker leaves
  // ------------------------------------------------------------------------------------------

  /** Where the heads are when one ring is empty, one decision at a time. */
  function MergeEnd(queued: seq<Packet>, p: nat, stamps: seq<Timestamp>, t: nat): (nat, nat)
    requires p <= |queued| && t <= |stamps|
    decreases |queued| - p + |stamps| - t
  {
    if p == |queued| || t == |stamps| then (p, t) else
    var d := Decide(queued[p], stamps[t]);
    MergeEnd(queued, if d.skbConsumed then p + 1 else p, stamps, if d.tsConsumed then t + 1 else t)
  }

  lemma {:induction false} EndBySections(queued: seq<Packet>, p: nat, stamps: seq<Timestamp>, t: nat)
    requires p <= |queued| && t <= |stamps|
    ensures var c := Correlate(queued, p, stamps, t);
            MergeEnd(queued, p, stamps, t) == if c.hit then MergeEnd(queued, c.p, stamps, c.t) else (c.p, c.t)
    decreases |queued| - p + |stamps| - t
  {
    if p < |queued| && t < |stamps| {
      var d := Decide(queued[p], stamps[t]);
      if !d.doStamp {
        EndBySections(queued, if d.skbConsumed then p + 1 else p, stamps, if d.tsConsumed then t + 1 else t);
      }
    }
  }

  lemma {:induction false} FinishEnds(s: RingSys)
    requires s.worker.Holding?
    ensures (Finish(s).p, Finish(s).t) == MergeEnd(s.queued, s.p, s.stamps, s.t)
    decreases |s.queued| - s.p
  {
    EndBySections(s.queued, s.p, s.stamps, s.t);
    if Advance(s).worker.Holding? {
      FinishEnds(Advance(s));
    }
  }

  lemma WorkEnds(s: RingSys)
    requires s.worker.Idle?
    ensures var after := Finish(Begin(s));
            (after.p, after.t) == MergeEnd(s.queued, Drain(s).p, s.stamps, s.t)
  {
    EndBySections(s.queued, Drain(s).p, s.stamps, s.t);
    var b := Begin(s);
    if b.worker.Holding? {
      FinishEnds(b);
    }
  }

  /** Some timestamp from `t` on has this id or a later one. */
  ghost predicate StampReaches(stamps: seq<Timestamp>, t: nat, id: nat) {
    exists j :: t <= j < |stamps| && stamps[j].sequenceId >= id
  }

  /** Some packet from `p` on has this id or a later one. */
  ghost predicate PacketReaches(queued: seq<Packet>, p: nat, id: nat) {
    exists i :: p <= i < |queued| && queued[i].sequenceId.Some? && queued[i].sequenceId.value >= id
  }

  lemma {:induction false} EndOfPackets(queued: seq<Packet>, p: nat, stamps: seq<Timestamp>, t: nat, i: nat)
    requires Increasing(queued, p, stamps, t) && p <= i < |queued| && t <= |stamps|
    ensures i < MergeEnd(queued, p, stamps, t).0 <==> StampReaches(stamps, t, queued[i].sequenceId.value)
    decreases |queued| - p + |stamps| - t
  {
    if t < |stamps| {
      var d := Decide(queued[p], stamps[t]);
      var p', t' := if d.skbConsumed then p + 1 else p, if d.tsConsumed then t + 1 else t;
      EndForward(queued, p', stamps, t');
      if i >= p' {
        EndOfPackets(queued, p', stamps, t', i);
        var id := queued[i].sequenceId.value;
        assert StampReaches(stamps, t, id) <==> StampReaches(stamps, t', id);
      } else {
        assert stamps[t].sequenceId >= queued[i].sequenceId.value;
      }
    }
  }

  lemma {:induction false} EndOfStamps(queued: seq<Packet>, p: nat, stamps: seq<Timestamp>, t: nat, j: nat)
    requires Increasing(queued, p, stamps, t) && p <= |queued| && t <= j < |stamps|
    ensures j < MergeEnd(queued, p, stamps, t).1 <==> PacketReaches(queued, p, stamps[j].sequenceId)
    decreases |queued| - p + |stamps| - t
  {
    if p < |queued| {
      var d := Decide(queued[p], stamps[t]);
      var p', t' := if d.skbConsumed then p + 1 else p, if d.tsConsumed then t + 1 else t;
      EndForward(queued, p', stamps, t');
      if j >= t' {
        EndOfStamps(queued, p', stamps, t', j);
        assert PacketReaches(queued, p, stamps[j].sequenceId) <==> PacketReaches(queued, p', stamps[j].sequenceId);
      } else {
        assert queued[p].sequenceId.value >= stamps[j].sequenceId;
      }
    }
  }

  lemma {:induction false} EndForward(queued: seq<Packet>, p: nat, stamps: seq<Timestamp>, t: nat)
    requires p <= |queued| && t <= |stamps|
    ensures var e := MergeEnd(queued, p, stamps, t); p <= e.0 <= |queued| && t <= e.1 <= |stamps|
    decreases |queued| - p + |stamps| - t
  {
    if p < |queued| && t < |stamps| {
      var d := Decide(queued[p], stamps[t]);
      EndForward(queued, if d.skbConsumed then p + 1 else p, stamps, if d.tsConsumed then t + 1 else t);
    }
  }

  /** A run of the worker gives up nothing too early: with nothing lost and increasing ids, a packet still
      waits afterwards exactly if all timestamps are older, and a timestamp exactly if all packets are. */
  lemma WorkLeavesLater(s: RingSys)
    requires s.worker.Idle? && s.lost == 0 && Increasing(s.queued, s.p, s.stamps, s.t)
    ensures var after := Finish(Begin(s));
            && (forall i | s.p <= i < |s.queued| ::
                  i < after.p <==> StampReaches(s.stamps, s.t, s.queued[i].sequenceId.value))
            && (forall j | s.t <= j < |s.stamps| ::
                  j < after.t <==> PacketReaches(s.queued, s.p, s.stamps[j].sequenceId))
  {
    WorkEnds(s);
    forall i | s.p <= i < |s.queued|
      ensures i < Finish(Begin(s)).p <==> StampReaches(s.stamps, s.t, s.queued[i].sequenceId.value)
    {
      EndOfPackets(s.queued, s.p, s.stamps, s.t, i);
    }
    forall j | s.t <= j < |s.stamps|
      ensures j < Finish(Begin(s)).t <==> PacketReaches(s.queued, s.p, s.stamps[j].sequenceId)
    {
      EndOfStamps(s.queued, s.p, s.stamps, s.t, j);
    }
  }
}
