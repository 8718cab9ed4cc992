/**
 What holds over whole runs of the TX side.
 */
module TxRuns {
  import opened TrackTable
  import opened StreamCommon
  import opened Windows
  import opened Runs
  import opened TxStreams
  import opened TxWindows
  import opened Weights

  type Request = StreamRequest<Stream>

  function Run(s: State, reqs: seq<Request>): State {
    RunBy(Step, s, reqs)
  }

  /** All hardware writes of a run, in order. */
  function RunWrites(s: State, reqs: seq<Request>): seq<Write<Record>> {
    WritesBy(Step, s, reqs)
  }

  function HwOf(s: State): Hardware<Record> {
    s.hw
  }

  lemma AllStepsKeep()
    ensures StepsKeep(Step, Inv)
  {
    forall s, filp, cmd | Inv(s) ensures Inv(Step(s, filp, cmd).state) {
      StepKeeps(s, filp, cmd);
    }
  }

  lemma AllStepsAccount()
    ensures Accounts(Step, HwOf)
  {
    forall s, filp, cmd ensures ApplyAll(HwOf(s), Step(s, filp, cmd).writes) == HwOf(Step(s, filp, cmd).state) {
      StepWrites(s, filp, cmd);
    }
  }

  /** The allocator and hardware invariants hold after every run. */
  lemma RunConsistent(s: Consistent, reqs: seq<Request>, s': State)
    requires s' == Run(s, reqs)
    ensures Inv(s')
  {
    AllStepsKeep();
    RunKeeps(Step, Inv, s, reqs);
  }

  /** The writes of a run account for the hardware after it. */
  lemma RunWritesEffect(s: State, reqs: seq<Request>)
    ensures ApplyAll(s.hw, RunWrites(s, reqs)) == Run(s, reqs).hw
  {
    AllStepsAccount();
    WritesEffect(Step, HwOf, s, reqs);
  }

  /** A write of a run as a write of one of its commands, in a consistent state. */
  lemma WriteInRun(s: Consistent, reqs: seq<Request>, p: nat) returns (q: nat, w: nat)
    requires reqs != [] && p <= |RunWrites(s, reqs)|
    ensures InProgress(Step, s, reqs, q, p)
    ensures var before := Run(s, reqs[..q]);
            var o := Step(before, reqs[q].filp, reqs[q].cmd);
            && Inv(before)
            && o.state == Run(s, reqs[..q + 1])
            && w <= |o.writes|
            && |before.hw.records| == |s.hw.records|
            && ApplyAll(s.hw, RunWrites(s, reqs)[..p]) == ApplyAll(before.hw, o.writes[..w])
  {
    AllStepsAccount();
    q, w := Locate(Step, HwOf, s, reqs, p);
    RunConsistent(s, reqs[..q], Run(s, reqs[..q]));
    RunWritesEffect(s, reqs[..q]);
  }

  /** In every state of the run the records can describe the ranges of all streams. */
  ghost predicate ReadableAlong(s: State, reqs: seq<Request>) {
    forall q | 0 <= q <= |reqs| :: AllReadable(Leases(Run(s, reqs[..q]).streams))
  }

  /** In a table of at most 65536 words every run is readable. */
  lemma SmallReadableAlong(s: Consistent, reqs: seq<Request>)
    requires |s.hw.cells| <= 0x1_0000
    ensures ReadableAlong(s, reqs)
  {
    forall q | 0 <= q <= |reqs| ensures AllReadable(Leases(Run(s, reqs[..q]).streams)) {
      var s' := Run(s, reqs[..q]);
      RunConsistent(s, reqs[..q], s');
      RunWritesEffect(s, reqs[..q]);
      SmallIsReadable(s'.used, s'.hw.cells, Leases(s'.streams));
    }
  }

  /** In every run, after every single write, each valid record shows only tracks that its own stream
      routes before or after the command in progress. */
  lemma RunGuards(s: Consistent, reqs: seq<Request>, p: nat) returns (q: nat)
    requires ReadableAlong(s, reqs) && reqs != [] && p <= |RunWrites(s, reqs)|
    ensures InProgress(Step, s, reqs, q, p)
    ensures Guarded(ApplyAll(s.hw, RunWrites(s, reqs)[..p]), EitherTracks(Run(s, reqs[..q]), Run(s, reqs[..q + 1])))
  {
    var w;
    q, w := WriteInRun(s, reqs, p);
    StepGuards(Run(s, reqs[..q]), reqs[q].filp, reqs[q].cmd);
  }

  /** The weight of the bitmap is what the live streams add up to. */
  lemma WeightAddsUp(s: Consistent)
    ensures |Ones(s.used)| == ChannelSum(Leases(s.streams), |s.hw.records|)
  {
    UsedWeight(s.used, s.hw.cells, Leases(s.streams), |s.hw.records|);
  }

  // ------------------------------------------------------------------------------------------
  // Valid records over whole runs
  // ------------------------------------------------------------------------------------------

  /** In every run records become valid only so. */
  lemma {:induction false} RunFills(s: Consistent, reqs: seq<Request>)
    ensures FilledFirst(s.hw, RunWrites(s, reqs))
    decreases |reqs|
  {
    if reqs != [] {
      var o := Step(s, reqs[0].filp, reqs[0].cmd);
      StepKeeps(s, reqs[0].filp, reqs[0].cmd);
      StepFills(s, reqs[0].filp, reqs[0].cmd);
      StepWrites(s, reqs[0].filp, reqs[0].cmd);
      RunFills(o.state, reqs[1..]);
      FilledConcat(s.hw, o.writes, RunWrites(o.state, reqs[1..]));
    }
  }

  /** In every run, after every single write, each valid record is the record of the stream stored at
      its index before or after the command in progress. */
  lemma RunRecords(s: Consistent, reqs: seq<Request>, i: nat, p: nat, r: Record) returns (q: nat)
    requires i < |s.hw.records| && p <= |RunWrites(s, reqs)| && reqs != []
    requires r == ApplyAll(s.hw, RunWrites(s, reqs)[..p]).records[i]
    ensures InProgress(Step, s, reqs, q, p)
    ensures r.valid ==> RecordIn(Run(s, reqs[..q]), i, r) || RecordIn(Run(s, reqs[..q + 1]), i, r)
  {
    var w;
    q, w := WriteInRun(s, reqs, p);
    StepRecords(Run(s, reqs[..q]), reqs[q].filp, reqs[q].cmd, i, w);
  }

  /** The record of an acceptable stream: the length is the headers of IP, UDP and RTP and the samples of
      all channels, and at most the limit; the range lies in the table. */
  ghost predicate Complete(s: State, i: nat, r: Record) {
    && RecordIn(s, i, r)
    && var stream := s.streams[i].stream;
       && Acceptable(stream, s.maxTracks)
       && r.details.ipLength == 40 + stream.numChannels * stream.numSamples * SampleLength(stream.codec) <= MAX_PACKET
       && s.streams[i].base + stream.numChannels <= |s.hw.cells|
  }

  lemma StoredIsComplete(s: Consistent, i: nat, r: Record)
    requires RecordIn(s, i, r)
    ensures Complete(s, i, r)
  {
    assert Leases(s.streams)[i].base + |Leases(s.streams)[i].tracks| <= |s.hw.cells|;
    LengthFits(s.streams[i].stream, s.maxTracks);
  }

  lemma LengthFits(stream: Stream, maxTracks: nat)
    requires Acceptable(stream, maxTracks)
    ensures IpLength(stream) % 0x1_0000 == IpLength(stream) <= MAX_PACKET
  {
  }

  /** In every run, after every single write, each valid record is the complete record of the stream
      stored at its index before or after the command in progress. */
  lemma RunComplete(s: Consistent, reqs: seq<Request>, i: nat, p: nat, r: Record) returns (q: nat)
    requires i < |s.hw.records| && p <= |RunWrites(s, reqs)| && reqs != []
    requires r == ApplyAll(s.hw, RunWrites(s, reqs)[..p]).records[i]
    ensures InProgress(Step, s, reqs, q, p)
    ensures r.valid ==> Complete(Run(s, reqs[..q]), i, r) || Complete(Run(s, reqs[..q + 1]), i, r)
  {
    q := RunRecords(s, reqs, i, p, r);
    var before, after := Run(s, reqs[..q]), Run(s, reqs[..q + 1]);
    RunConsistent(s, reqs[..q], before);
    RunConsistent(s, reqs[..q + 1], after);
    if r.valid && RecordIn(before, i, r) {
      StoredIsComplete(before, i, r);
    } else if r.valid {
      StoredIsComplete(after, i, r);
    }
  }

  // ------------------------------------------------------------------------------------------
  // Failed commands
  // ------------------------------------------------------------------------------------------

  /** What the hardware routes for a live stream is what the stream asked for. */
  lemma RoutingIsDescription(s: Consistent, k: nat)
    requires k in s.streams && Readable(LeaseOf(s.streams[k]))
    ensures Routing(s.hw.cells, s.hw.records[k]) == Wanted(Channels(s.streams[k].stream))
  {
    LeaseHolds(s.used, s.hw.cells, Leases(s.streams), k);
    RoutingIsWanted(s.hw.cells, s.hw.records[k], LeaseOf(s.streams[k]));
  }

  lemma FailedResizeKeepsDescriptions(s: State, k: nat, stream: Stream)
    requires k in s.streams && ResizeStep(s, k, stream).result.Err?
    ensures Described(ResizeStep(s, k, stream).state.streams) == Described(s.streams)
  {
    var e := s.streams[k];
    var back := FirstFit(Marked(s.used, e.base, e.stream.numChannels, false), e.stream.numChannels);
    if back.Some? {
      RebaseKeepsDescriptions(s.streams, k, back.value);
    }
  }

  lemma FailedUpdateKeepsDescriptions(s: State, filp: Handle, k: nat, stream: Stream)
    requires UpdateStep(s, filp, k, stream).result.Err?
    ensures Described(UpdateStep(s, filp, k, stream).state.streams) == Described(s.streams)
  {
    if Acceptable(stream, s.maxTracks) && k in s.streams && s.streams[k].owner == filp {
      FailedResizeKeepsDescriptions(s, k, stream);
    } else {
      assert UpdateStep(s, filp, k, stream).state == s;
    }
  }

  lemma FailedAddIsIdle(s: State, filp: Handle, stream: Stream)
    requires AddStep(s, filp, stream).result.Err?
    ensures AddStep(s, filp, stream).state == s
  {
  }

  lemma FailedKeepsDescriptions(s: State, filp: Handle, cmd: Command)
    requires Step(s, filp, cmd).result.Err?
    ensures Described(Step(s, filp, cmd).state.streams) == Described(s.streams)
  {
    match cmd
    case Add(stream) => FailedAddIsIdle(s, filp, stream);
    case Update(k, stream) => FailedUpdateKeepsDescriptions(s, filp, k, stream);
    case Delete(k) => assert DeleteStep(s, filp, k).state == s;
    case Close =>
  }

  lemma FailedUpdateIsReadable(s: Consistent, filp: Handle, k: nat, stream: Stream)
    requires UpdateStep(s, filp, k, stream).result.Err? && AllReadable(Leases(s.streams))
    ensures AllReadable(Leases(UpdateStep(s, filp, k, stream).state.streams))
  {
    if k in s.streams {
      RollbackLowersBase(s, filp, k, stream);
      RebaseIsReadable(s.streams, k, UpdateStep(s, filp, k, stream).state.streams[k].base);
    } else {
      assert UpdateStep(s, filp, k, stream).state == s;
    }
  }

  /** A failed command does not move a range out of the reach of its record. */
  lemma FailedIsReadable(s: Consistent, filp: Handle, cmd: Command)
    requires Step(s, filp, cmd).result.Err? && AllReadable(Leases(s.streams))
    ensures AllReadable(Leases(Step(s, filp, cmd).state.streams))
  {
    match cmd
    case Add(stream) => FailedAddIsIdle(s, filp, stream);
    case Update(k, stream) => FailedUpdateIsReadable(s, filp, k, stream);
    case Delete(k) => assert DeleteStep(s, filp, k).state == s;
    case Close =>
  }

  lemma RebaseIsReadable(streams: map<nat, Elem>, k: nat, b: nat)
    requires AllReadable(Leases(streams)) && k in streams
    requires |Channels(streams[k].stream)| > 0 ==> b <= streams[k].base
    ensures AllReadable(Leases(streams[k := streams[k].(base := b)]))
  {
    var streams' := streams[k := streams[k].(base := b)];
    forall i | i in streams' ensures Readable(Leases(streams')[i]) {
      assert Readable(Leases(streams)[i]);
    }
  }

  /** A failed command is not observable: live indices, owners, descriptions and
      the routing seen through the hardware are unchanged, even if rollback moved the range. */
  lemma FailedIsNoOp(s: Consistent, filp: Handle, cmd: Command)
    requires AllReadable(Leases(s.streams)) && Step(s, filp, cmd).result.Err?
    ensures var s' := Step(s, filp, cmd).state;
            && Described(s'.streams) == Described(s.streams)
            && SameRouting(s.hw, s'.hw)
  {
    StepKeeps(s, filp, cmd);
    StepWrites(s, filp, cmd);
    FailedKeepsDescriptions(s, filp, cmd);
    FailedIsReadable(s, filp, cmd);
    SameDescriptionsSameRouting(s, Step(s, filp, cmd).state);
  }

  lemma SameDescriptionsSameRouting(s: Consistent, s': Consistent)
    requires AllReadable(Leases(s.streams)) && AllReadable(Leases(s'.streams))
    requires |s'.hw.records| == |s.hw.records| && Described(s'.streams) == Described(s.streams)
    ensures SameRouting(s.hw, s'.hw)
  {
    SameValid(s, s');
    forall k | 0 <= k < |s.hw.records| && s.hw.records[k].valid
      ensures SameRoute(s.hw, s.hw.records[k], s'.hw, s'.hw.records[k])
    {
      assert Readable(Leases(s.streams)[k]) && Readable(Leases(s'.streams)[k]);
      SameStreamSameRouting(s, s', k);
    }
  }

  lemma SameValid(s: State, s': State)
    requires RecordsInv(s) && RecordsInv(s') && |s'.hw.records| == |s.hw.records|
    requires Described(s'.streams) == Described(s.streams)
    ensures forall k | k in s.streams :: k in s'.streams && s'.streams[k].stream == s.streams[k].stream
    ensures forall k | 0 <= k < |s.hw.records| ::
              s'.hw.records[k].valid == s.hw.records[k].valid && (s.hw.records[k].valid ==> k in s.streams)
  {
    SameKeys(s.streams, s'.streams);
  }

  lemma SameStreamSameRouting(s: Consistent, s': Consistent, k: nat)
    requires k in s.streams && k in s'.streams && s.streams[k].stream == s'.streams[k].stream
    requires Readable(LeaseOf(s.streams[k])) && Readable(LeaseOf(s'.streams[k]))
    ensures SameRoute(s.hw, s.hw.records[k], s'.hw, s'.hw.records[k])
  {
    RoutingIsDescription(s, k);
    RoutingIsDescription(s', k);
  }

  /** A failed update moves at most the range of its own stream, and a range with words only downwards. */
  lemma RollbackLowersBase(s: Consistent, filp: Handle, k: nat, stream: Stream)
    requires k in s.streams && Step(s, filp, Update(k, stream)).result.Err?
    ensures Rebased(s.streams, Step(s, filp, Update(k, stream)).state.streams, k)
  {
    RollbackFits(s.used, s.hw.cells, Leases(s.streams), k);
    UpdateRebases(s, filp, k, stream);
  }

  /** Only the base of stream `k` differs, and is no higher if the stream has channels. */
  ghost predicate Rebased(streams: map<nat, Elem>, streams': map<nat, Elem>, k: nat)
    requires k in streams
  {
    && k in streams'
    && streams' == streams[k := streams[k].(base := streams'[k].base)]
    && (|Channels(streams[k].stream)| > 0 ==> streams'[k].base <= streams[k].base)
  }

  lemma UpdateRebases(s: State, filp: Handle, k: nat, stream: Stream)
    requires k in s.streams && UpdateStep(s, filp, k, stream).result.Err?
    requires var l := LeaseOf(s.streams[k]);
             var back := FirstFit(Marked(s.used, l.base, |l.tracks|, false), |l.tracks|);
             |l.tracks| > 0 ==> back.Some? && back.value <= l.base
    ensures Rebased(s.streams, UpdateStep(s, filp, k, stream).state.streams, k)
  {
  }

  // ------------------------------------------------------------------------------------------
  // Ownership and leak freedom
  // ------------------------------------------------------------------------------------------

  lemma CloseOwnChange(s: State, filp: Handle, k: nat, after: map<nat, Elem>)
    requires after == CloseFrom(s, filp, 0).state.streams
    ensures OwnChange(s.streams, after, filp, k)
  {
    CloseFromRemoves(s, filp, 0, after);
  }

  lemma UpdateOwnChange(s: State, filp: Handle, i: nat, stream: Stream, k: nat)
    ensures OwnChange(s.streams, UpdateStep(s, filp, i, stream).state.streams, filp, k)
  {
  }

  /** A command changes only streams of the handle it came from. */
  lemma OnlyOwnerChanges(s: State, filp: Handle, cmd: Command, k: nat)
    ensures OwnChange(s.streams, Step(s, filp, cmd).state.streams, filp, k)
  {
    match cmd
    case Add(stream) => assert OwnChange(s.streams, AddStep(s, filp, stream).state.streams, filp, k);
    case Update(i, stream) => UpdateOwnChange(s, filp, i, stream, k);
    case Delete(i) => assert OwnChange(s.streams, DeleteStep(s, filp, i).state.streams, filp, k);
    case Close => CloseOwnChange(s, filp, k, Step(s, filp, Close).state.streams);
  }

  lemma CloseDropsOwn(s: State, filp: Handle, after: map<nat, Elem>)
    requires after == CloseFrom(s, filp, 0).state.streams
    requires forall k | k in s.streams :: k < |s.hw.records|
    ensures after == OfOthers(s.streams, filp)
  {
    CloseFromRemoves(s, filp, 0, after);
  }

  /** Closing a handle removes exactly its own streams. */
  lemma CloseRemovesOwn(s: Consistent, filp: Handle)
    ensures Step(s, filp, Close).state.streams == OfOthers(s.streams, filp)
  {
    CloseDropsOwn(s, filp, Step(s, filp, Close).state.streams);
  }

  ghost predicate Clean(s: State) {
    && s.streams == map[]
    && (forall j | 0 <= j < |s.used| :: !s.used[j])
    && (forall j | 0 <= j < |s.hw.cells| :: s.hw.cells[j] == Mute)
    && (forall k | 0 <= k < |s.hw.records| :: !s.hw.records[k].valid)
  }

  lemma EmptyIsClean(s: Consistent)
    requires s.streams == map[]
    ensures Clean(s)
  {
    assert forall j :: !Covered(Leases(s.streams), j);
  }

  /** Once every handle that owns a stream is closed, nothing is left behind. */
  lemma {:induction false} AllClosedIsClean(s: Consistent, handles: seq<Handle>)
    requires forall k | k in s.streams :: s.streams[k].owner in handles
    ensures Clean(Run(s, Closes(handles)))
    decreases |handles|
  {
    if handles == [] {
      assert s.streams == map[] by {
        assert forall k :: k !in s.streams;
      }
      EmptyIsClean(s);
    } else {
      var s1 := Step(s, handles[0], Close).state;
      StepKeeps(s, handles[0], Close);
      CloseRemovesOwn(s, handles[0]);
      assert Closes<Stream>(handles)[1..] == Closes(handles[1..]);
      AllClosedIsClean(s1, handles[1..]);
    }
  }

  // ------------------------------------------------------------------------------------------
  // Bystanders
  // ------------------------------------------------------------------------------------------

  /** Record and routed words of stream `i` are exactly what element `e` asks for. */
  ghost predicate AsDescribed(hw: Hardware<Record>, i: nat, e: Elem) {
    && i < |hw.records|
    && hw.records[i] == RecordOf(e)
    && Routing(hw.cells, hw.records[i]) == Wanted(Channels(e.stream))
  }

  lemma SparedAsDescribed(s: Consistent, ws: seq<Write<Record>>, i: nat, p: nat)
    requires i in s.streams && Readable(LeaseOf(s.streams[i])) && p <= |ws|
    requires Spares(ws, i, Leases(s.streams)[i])
    ensures AsDescribed(ApplyAll(s.hw, ws[..p]), i, s.streams[i])
  {
    LeaseHolds(s.used, s.hw.cells, Leases(s.streams), i);
    SparedRouting(s.hw, ws, i, LeaseOf(s.streams[i]), p);
  }

  /** After every single write of a command, whatever its result, record and routing of every stream
      it does not name are exactly the stream's description. */
  lemma BystanderAsDescribed(s: Consistent, filp: Handle, cmd: Command, i: nat, p: nat)
    requires Bystander(s.streams, filp, cmd, i) && Readable(LeaseOf(s.streams[i]))
    requires p <= |Step(s, filp, cmd).writes|
    ensures AsDescribed(ApplyAll(s.hw, Step(s, filp, cmd).writes[..p]), i, s.streams[i])
  {
    StepSpares(s, filp, cmd, i);
    SparedAsDescribed(s, Step(s, filp, cmd).writes, i, p);
  }

  /** A command of another handle either leaves the stream alone or writes nothing. */
  lemma ForeignSpares(s: Consistent, filp: Handle, cmd: Command, i: nat)
    requires i in s.streams && s.streams[i].owner != filp
    ensures Spares(Step(s, filp, cmd).writes, i, Leases(s.streams)[i])
  {
    if Bystander(s.streams, filp, cmd, i) {
      StepSpares(s, filp, cmd, i);
    } else {
      assert Step(s, filp, cmd).writes == [];
    }
  }

  /** Commands of other handles do not change a stream. */
  lemma {:induction false} RunKeepsStream(s: State, reqs: seq<Request>, i: nat, e: Elem)
    requires i in s.streams && s.streams[i] == e && forall r | r in reqs :: r.filp != e.owner
    ensures i in Run(s, reqs).streams && Run(s, reqs).streams[i] == e
    decreases |reqs|
  {
    if reqs != [] {
      OnlyOwnerChanges(s, reqs[0].filp, reqs[0].cmd, i);
      RunKeepsStream(Step(s, reqs[0].filp, reqs[0].cmd).state, reqs[1..], i, e);
    }
  }

  /** Handles do not interfere: as long as only other handles issue commands, after every single write
      of the run record and routing of a stream are exactly its description. */
  lemma Undisturbed(s: Consistent, reqs: seq<Request>, i: nat, p: nat)
    requires i in s.streams && Readable(LeaseOf(s.streams[i]))
    requires forall r | r in reqs :: r.filp != s.streams[i].owner
    requires p <= |RunWrites(s, reqs)|
    ensures AsDescribed(ApplyAll(s.hw, RunWrites(s, reqs)[..p]), i, s.streams[i])
  {
    if reqs == [] {
      SparedAsDescribed(s, [], i, 0);
    } else {
      var q, w := WriteInRun(s, reqs, p);
      var before := Run(s, reqs[..q]);
      RunKeepsStream(s, reqs[..q], i, s.streams[i]);
      ForeignSpares(before, reqs[q].filp, reqs[q].cmd, i);
      SparedAsDescribed(before, Step(before, reqs[q].filp, reqs[q].cmd).writes, i, w);
    }
  }
}
