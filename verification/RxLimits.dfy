/**
 Where the RX side reaches its limits, shown on runs of commands.

 The base field of a record has 16 bits: all runs are isolated at every write exactly if the track
 table has no more than 65536 words.  In a larger one, 512 streams of 128 channels fill the first
 65536 words, and the record of the next stream points to the range of the first.  And rolling back
 a failed update can fail: for a stream without channels in a full table.
 */
module RxLimits {
  import opened TrackTable
  import opened StreamCommon
  import opened TrackClaims
  import opened Windows
  import opened Runs
  import opened RxStreams
  import opened RxRuns
  import opened TableLimits

  /** A stream of `n` channels, the first routed to `track` and all others nowhere. */
  function Routed(n: nat, track: int): Stream {
    Stream(Interface(1, 1), Interface(0, 0), false, false, false, false, false, 0, 96, true, 0, 0, 0, 0,
           n, seq(MAX_CHANNELS, i => if i == 0 then track else -1))
  }

  lemma RoutedTracks(n: nat, track: int)
    requires n <= MAX_CHANNELS
    ensures forall max: nat | track < max :: ValidStream(Routed(n, track), max)
    ensures var tracks := Channels(Routed(n, track));
            |tracks| == n && NoRepeats(tracks) && forall i | 0 <= i < n :: tracks[i] == if i == 0 then track else -1
  {
  }

  /** The k-th of the streams that fill the table. */
  function Filler(k: nat): Stream {
    Routed(128, if k == 0 then 0 else -1)
  }

  /** The requests of the first `k` of them. */
  function Fillers(k: nat): seq<Request> {
    Adds(Filler, k)
  }

  // ------------------------------------------------------------------------------------------
  // Filling the table
  // ------------------------------------------------------------------------------------------

  /** The state after `k` of the streams: stream i has the 128 words from 128 * i on. */
  ghost predicate Filled(s: State, n: nat, k: nat) {
    && |s.used| == n && |s.hw.records| > k
    && (forall j | 0 <= j < n :: s.used[j] <==> j < 128 * k)
    && s.claimed == [k > 0, false]
    && (forall i: nat :: i in s.streams <==> i < k)
    && (forall i | i in s.streams :: s.streams[i] == Elem(0, Filler(i), 128 * i))
  }

  /** A stream whose track is free is added behind the ones that are there. */
  lemma AddsBehind(s: State, n: nat, k: nat, c: nat, track: int)
    requires Filled(s, n, k) && 0 < c <= MAX_CHANNELS && 128 * k + c <= n
    requires track < 2 && (track >= 0 ==> !s.claimed[track])
    ensures var stream := Routed(c, track);
            var b := 128 * k;
            AddStep(s, 0, stream) ==
            Install(s, Marked(s.used, b, c, true), TracksMarked(s.claimed, Channels(stream), true), [],
                    k, Elem(0, stream, b), Ok(k))
  {
    RoutedTracks(c, track);
    CheckPasses(s.claimed, Channels(Routed(c, track)));
    NextIndex(s.streams, k, |s.hw.records|);
    NextBase(s.used, 128 * k, c);
  }

  lemma FillOne(s: State, n: nat, k: nat)
    requires Filled(s, n, k) && 128 * (k + 1) <= n && k + 1 < |s.hw.records|
    ensures var s' := Step(s, 0, Add(Filler(k))).state;
            Filled(s', n, k + 1) && |s'.hw.records| == |s.hw.records|
  {
    AddsBehind(s, n, k, 128, if k == 0 then 0 else -1);
    RoutedTracks(128, if k == 0 then 0 else -1);
  }

  lemma {:induction false} FillAll(n: nat, maxStreams: nat, k: nat, s: State)
    requires 128 * k <= n && k < maxStreams && s == Run(InitialState(n, 2, maxStreams), Fillers(k))
    ensures Filled(s, n, k) && |s.hw.records| == maxStreams
  {
    if k > 0 {
      var before := Run(InitialState(n, 2, maxStreams), Fillers(k - 1));
      FillAll(n, maxStreams, k - 1, before);
      RunAppend(Step, InitialState(n, 2, maxStreams), Fillers(k - 1), Request(0, Add(Filler(k - 1))));
      FillOne(before, n, k - 1);
    }
  }

  // ------------------------------------------------------------------------------------------
  // The collision
  // ------------------------------------------------------------------------------------------

  /** One stream more, behind `k` that fill the table. */
  function Wide(k: nat): seq<Request> {
    Fillers(k) + [Request(0, Add(Routed(1, 1)))]
  }

  lemma WideState(n: nat, k: nat, s: State)
    requires 1 < k && 128 * k < n && s == Run(InitialState(n, 2, k + 1), Wide(k))
    ensures |s.used| == n && |s.hw.records| == k + 1 && s.claimed == [true, true]
    ensures forall j | 0 <= j < n :: s.used[j] <==> j <= 128 * k
    ensures forall i: nat :: i in s.streams <==> i <= k
    ensures forall i | i in s.streams ::
              s.streams[i] == if i == k then Elem(0, Routed(1, 1), 128 * k) else Elem(0, Filler(i), 128 * i)
  {
    var before := Run(InitialState(n, 2, k + 1), Fillers(k));
    FillAll(n, k + 1, k, before);
    RunAppend(Step, InitialState(n, 2, k + 1), Fillers(k), Request(0, Add(Routed(1, 1))));
    AddsBehind(before, n, k, 1, 1);
    RoutedTracks(1, 1);
  }

  lemma WideHardware(s: Consistent, k: nat)
    requires 0 in s.streams && s.streams[0] == Elem(0, Filler(0), 0)
    requires k in s.streams && s.streams[k] == Elem(0, Routed(1, 1), 0x1_0000)
    ensures k < |s.hw.records| && 0 < |s.hw.cells| && s.hw.cells[0] == Track(0)
    ensures s.hw.records[0] == LiveRecord(Filler(0), 0)
    ensures s.hw.records[k] == LiveRecord(Routed(1, 1), 0x1_0000)
  {
    RoutedTracks(128, 0);
    LeaseHolds(s.used, s.hw.cells, Leases(s.streams), 0);
    assert InLease(Leases(s.streams)[0], 0);
  }

  /** The truncated base of stream `k` shows the word of stream 0. */
  lemma Collide(hw: Hardware<Record>, k: nat)
    requires 0 < k < |hw.records| && 0 < |hw.cells| && hw.cells[0] == Track(0)
    requires hw.records[0] == LiveRecord(Filler(0), 0) && hw.records[k] == LiveRecord(Routed(1, 1), 0x1_0000)
    ensures !Isolated(hw)
    ensures Routing(hw.cells, hw.records[k]) != Wanted(Channels(Routed(1, 1)))
  {
    assert InWindow(hw.records[0], 0) && InWindow(hw.records[k], 0) && hw.cells[0] == CellOf(0);
    assert Exposes(hw, 0, 0) && Exposes(hw, k, 0);
    RoutedTracks(1, 1);
    assert Channels(Routed(1, 1)) == [1];
    TruncatedReads(hw.cells, hw.records[k], 0x1_0000, 1);
  }

  lemma EndNotIsolated(s: State, reqs: seq<Request>)
    requires !Isolated(Run(s, reqs).hw)
    ensures !IsolatedAlong(s.hw, RunWrites(s, reqs))
  {
    RunWritesEffect(s, reqs);
    var ws := RunWrites(s, reqs);
    assert ws[..|ws|] == ws;
  }

  lemma WideEnd(n: nat, k: nat, s: State)
    requires n > 0x1_0000 && 128 * k == 0x1_0000 && s == Run(InitialState(n, 2, k + 1), Wide(k))
    ensures k in s.streams && k < |s.hw.records| && !Isolated(s.hw)
    ensures Routing(s.hw.cells, s.hw.records[k]) != Wanted(Channels(s.streams[k].stream))
  {
    InitialInv(n, 2, k + 1);
    RunConsistent(InitialState(n, 2, k + 1), Wide(k), s);
    WideState(n, k, s);
    WideHardware(s, k);
    Collide(s.hw, k);
  }

  /** In every table of more than 65536 words a run of 513 adds ends with two records that show the same
      track. */
  lemma WideCollides(n: nat, k: nat)
    requires n > 0x1_0000 && 128 * k == 0x1_0000
    ensures var s := InitialState(n, 2, k + 1); !IsolatedAlong(s.hw, RunWrites(s, Wide(k)))
  {
    var s := InitialState(n, 2, k + 1);
    WideEnd(n, k, Run(s, Wide(k)));
    EndNotIsolated(s, Wide(k));
  }

  lemma SmallIsolated(s: Consistent, reqs: seq<Request>)
    requires |s.hw.cells| <= 0x1_0000
    ensures IsolatedAlong(s.hw, RunWrites(s, reqs))
  {
    SmallReadableAlong(s, reqs);
    RunIsolated(s, reqs);
  }

  /** The exact condition on the size of the track table: all runs from the initial state are isolated
      at every write if and only if it has at most 65536 words. */
  lemma IsolatedExactly(n: nat)
    ensures n <= 0x1_0000 <==>
            forall maxTracks: nat, maxStreams: nat, reqs: seq<Request> ::
              var s := InitialState(n, maxTracks, maxStreams); IsolatedAlong(s.hw, RunWrites(s, reqs))
  {
    if n <= 0x1_0000 {
      forall maxTracks: nat, maxStreams: nat, reqs: seq<Request>
        ensures var s := InitialState(n, maxTracks, maxStreams); IsolatedAlong(s.hw, RunWrites(s, reqs))
      {
        InitialInv(n, maxTracks, maxStreams);
        SmallIsolated(InitialState(n, maxTracks, maxStreams), reqs);
      }
    } else {
      var k: nat :| 128 * k == 0x1_0000 by { assert 128 * 512 == 0x1_0000; }
      WideCollides(n, k);
    }
  }

  /** What the hardware routes for each live stream is what it asked for. */
  ghost predicate AllAsDescribed(s: State) {
    forall k | k in s.streams :: AsDescribed(s.hw, k, s.streams[k])
  }

  lemma SmallAsDescribed(s: Consistent)
    requires |s.hw.cells| <= 0x1_0000
    ensures AllAsDescribed(s)
  {
    SmallIsReadable(s.used, s.hw.cells, Leases(s.streams));
    forall k | k in s.streams ensures AsDescribed(s.hw, k, s.streams[k]) {
      assert Readable(Leases(s.streams)[k]);
      RoutingIsDescription(s, k);
    }
  }

  lemma RunAsDescribed(s: Consistent, reqs: seq<Request>)
    requires |s.hw.cells| <= 0x1_0000
    ensures AllAsDescribed(Run(s, reqs))
  {
    RunConsistent(s, reqs, Run(s, reqs));
    RunWritesEffect(s, reqs);
    SmallAsDescribed(Run(s, reqs));
  }

  /** The same condition is exact for the routing: after every run all streams are routed as described
      if and only if the table has at most 65536 words. */
  lemma RoutedExactly(n: nat)
    ensures n <= 0x1_0000 <==>
            forall maxTracks: nat, maxStreams: nat, reqs: seq<Request> ::
              AllAsDescribed(Run(InitialState(n, maxTracks, maxStreams), reqs))
  {
    if n <= 0x1_0000 {
      forall maxTracks: nat, maxStreams: nat, reqs: seq<Request>
        ensures AllAsDescribed(Run(InitialState(n, maxTracks, maxStreams), reqs))
      {
        InitialInv(n, maxTracks, maxStreams);
        RunAsDescribed(InitialState(n, maxTracks, maxStreams), reqs);
      }
    } else {
      var k: nat :| 128 * k == 0x1_0000 by { assert 128 * 512 == 0x1_0000; }
      WideEnd(n, k, Run(InitialState(n, 2, k + 1), Wide(k)));
    }
  }

  // ------------------------------------------------------------------------------------------
  // A failed command that can be observed
  // ------------------------------------------------------------------------------------------

  /** The table is filled up to the range of the last stream, which does not fit its record; then the
      range of stream 1 is freed. */
  function Holed(k: nat): seq<Request> {
    Wide(k) + [Request(0, Delete(1))]
  }

  /** The state then: words 128 to 255 are free, and those behind the last stream. */
  ghost predicate HoledState(s: State, n: nat, k: nat) {
    && |s.used| == n && s.claimed == [true, true]
    && (forall j | 0 <= j < n :: s.used[j] <==> j <= 128 * k && !(128 <= j < 256))
    && k in s.streams && s.streams[k] == Elem(0, Routed(1, 1), 128 * k)
    && (forall i | i in s.streams && i != k :: 1 !in Channels(s.streams[i].stream))
  }

  lemma HoledRun(n: nat, k: nat, s: State)
    requires 2 < k && 128 * k < n && s == Run(InitialState(n, 2, k + 1), Holed(k))
    ensures HoledState(s, n, k)
  {
    var wide := Run(InitialState(n, 2, k + 1), Wide(k));
    WideState(n, k, wide);
    RunAppend(Step, InitialState(n, 2, k + 1), Wide(k), Request(0, Delete(1)));
    assert s == FreeStream(wide, 1).state;
    RoutedTracks(128, -1);
    RoutedTracks(128, 0);
  }

  /** The update of the last stream to 256 channels finds no room, and its range moves into the hole. */
  lemma UpdateFails(s: State, n: nat, k: nat)
    requires HoledState(s, n, k) && 2 < k && 128 * k < n <= 128 * k + 128
    ensures var o := Step(s, 0, Update(k, Routed(256, 1)));
            o.result == Err(ENOSPC) && k in o.state.streams && o.state.streams[k] == Elem(0, Routed(1, 1), 128)
  {
    RoutedTracks(1, 1);
    RoutedTracks(256, 1);
    CheckPasses(TracksMarked(s.claimed, Channels(Routed(1, 1)), false), Channels(Routed(256, 1)));
    var used := Marked(s.used, 128 * k, 1, false);
    NoRoom(used, k);
  }

  lemma HoledWord(s: Consistent, n: nat, k: nat)
    requires HoledState(s, n, k) && 0x1_0000 <= 128 * k < n
    ensures k < |s.hw.records| && s.hw.records[k] == LiveRecord(Routed(1, 1), 128 * k)
    ensures |s.hw.cells| == n && s.hw.cells[128 * k % 0x1_0000] != Track(1)
  {
    RoutedTracks(1, 1);
    assert Leases(s.streams)[k].tracks == [1];
    OneWord(s.used, s.hw.cells, Leases(s.streams), k, 1, 128 * k % 0x1_0000);
  }

  lemma MovedWord(s: Consistent, k: nat)
    requires k in s.streams && s.streams[k] == Elem(0, Routed(1, 1), 128)
    ensures k < |s.hw.records| && Routing(s.hw.cells, s.hw.records[k]) == Wanted([1])
  {
    RoutedTracks(1, 1);
    RoutingIsDescription(s, k);
    assert Channels(Routed(1, 1)) == [1];
  }

  lemma FailureObserved(n: nat, k: nat)
    requires 2 < k && 0x1_0000 <= 128 * k < n <= 128 * k + 128
    ensures var s := Run(InitialState(n, 2, k + 1), Holed(k));
            var o := Step(s, 0, Update(k, Routed(256, 1)));
            o.result.Err? && !SameRouting(s.hw, o.state.hw)
  {
    var s := Run(InitialState(n, 2, k + 1), Holed(k));
    var o := Step(s, 0, Update(k, Routed(256, 1)));
    InitialInv(n, 2, k + 1);
    RunConsistent(InitialState(n, 2, k + 1), Holed(k), s);
    HoledRun(n, k, s);
    UpdateFails(s, n, k);
    StepKeeps(s, 0, Update(k, Routed(256, 1)));
    HoledWord(s, n, k);
    MovedWord(o.state, k);
    RoutingMoves(s.hw, o.state.hw, k, 128 * k, 1);
  }

  lemma SmallFailsUnseen(s: Consistent, reqs: seq<Request>, filp: Handle, cmd: Command, s': State)
    requires |s.hw.cells| <= 0x1_0000 && s' == Run(s, reqs) && Step(s', filp, cmd).result.Err?
    ensures SameRouting(s'.hw, Step(s', filp, cmd).state.hw)
  {
    RunConsistent(s, reqs, s');
    RunWritesEffect(s, reqs);
    SmallIsReadable(s'.used, s'.hw.cells, Leases(s'.streams));
    FailedIsNoOp(s', filp, cmd);
  }

  /** And exact for failed commands: after every run they leave the routing unchanged if and only if the
      table has at most 65536 words. */
  lemma FailedExactly(n: nat)
    ensures n <= 0x1_0000 <==>
            forall maxTracks: nat, maxStreams: nat, reqs: seq<Request>, filp: Handle, cmd: Command ::
              var s := Run(InitialState(n, maxTracks, maxStreams), reqs);
              Step(s, filp, cmd).result.Err? ==> SameRouting(s.hw, Step(s, filp, cmd).state.hw)
  {
    if n <= 0x1_0000 {
      forall maxTracks: nat, maxStreams: nat, reqs: seq<Request>, filp: Handle, cmd: Command
        ensures var s := Run(InitialState(n, maxTracks, maxStreams), reqs);
                Step(s, filp, cmd).result.Err? ==> SameRouting(s.hw, Step(s, filp, cmd).state.hw)
      {
        var s := Run(InitialState(n, maxTracks, maxStreams), reqs);
        if Step(s, filp, cmd).result.Err? {
          InitialInv(n, maxTracks, maxStreams);
          SmallFailsUnseen(InitialState(n, maxTracks, maxStreams), reqs, filp, cmd, s);
        }
      }
    } else {
      var k := FillCount(n);
      FailureObserved(n, k);
    }
  }

  // ------------------------------------------------------------------------------------------
  // A rollback that fails
  // ------------------------------------------------------------------------------------------

  /** The first stream has no channels, the second takes the only word of the table. */
  function Full(): seq<Request> {
    [Request(0, Add(Routed(0, -1))), Request(0, Add(Routed(1, -1)))]
  }

  lemma AddsFirst(s: State, n: nat, k: nat)
    requires s.used == [false] && s.claimed == [] && n <= 1 && k < |s.hw.records|
    requires forall i: nat :: i in s.streams <==> i < k
    ensures AddStep(s, 0, Routed(n, -1)) ==
            Install(s, Marked(s.used, 0, n, true), TracksMarked(s.claimed, Channels(Routed(n, -1)), true), [],
                    k, Elem(0, Routed(n, -1), 0), Ok(k))
  {
    RoutedTracks(n, -1);
    CheckPasses(s.claimed, Channels(Routed(n, -1)));
    NextIndex(s.streams, k, |s.hw.records|);
    FirstFitUnique(s.used, n, 0);
  }

  lemma FullTable(s: State)
    requires s == Run(InitialState(1, 0, 2), Full())
    ensures s.used == [true] && s.claimed == []
    ensures s.streams == map[0 := Elem(0, Routed(0, -1), 0), 1 := Elem(0, Routed(1, -1), 0)]
  {
    var s0 := InitialState(1, 0, 2);
    assert s0.used == [false] && s0.claimed == [];
    AddsFirst(s0, 0, 0);
    var s1 := Step(s0, 0, Add(Routed(0, -1))).state;
    assert s1.used == [false] && s1.claimed == [] && |s1.hw.records| == 2;
    AddsFirst(s1, 1, 1);
    RunAppend(Step, s0, [Request(0, Add(Routed(0, -1)))], Request(0, Add(Routed(1, -1))));
    assert Full() == [Request(0, Add(Routed(0, -1)))] + [Request(0, Add(Routed(1, -1)))];
    assert Run(s0, Full()[..1]) == s1 by { RunAppend(Step, s0, [], Request(0, Add(Routed(0, -1)))); }
  }

  /** An update that has no room, and whose rollback has none either; it changes nothing. */
  lemma RollbackCanFail(s: State)
    requires s == Run(InitialState(1, 0, 2), Full())
    ensures 0 in s.streams && FirstFit(Marked(s.used, s.streams[0].base, 0, false), 0).None?
    ensures Step(s, 0, Update(0, Routed(1, -1))).result == Err(ENOSPC)
    ensures Step(s, 0, Update(0, Routed(1, -1))).state == s
  {
    FullTable(s);
    assert Marked(s.used, 0, 0, false) == s.used;
    RoutedTracks(0, -1);
    RoutedTracks(1, -1);
    CheckPasses(s.claimed, Channels(Routed(1, -1)));
  }
}
