/**
 Where the TX side reaches its limit, shown on runs of commands.

 The base field of a record has 16 bits: all runs send the tracks they were asked for, and keep failed
 commands unobservable, exactly if the track table has no more than 65536 words.
 */
module TxLimits {
  import opened TrackTable
  import opened StreamCommon
  import opened Windows
  import opened Runs
  import opened TxStreams
  import opened TxRuns
  import opened TableLimits

  /** A stream of `n` channels, the first with `track` and all others with none, and no samples. */
  function Sending(n: ChannelCount, track: int): Stream {
    Stream(Interface(1, 1, 1, 1, 0), Interface(0, 0, 0, 0, 0), [0, 0, 0, 0, 0, 0], [0, 0, 0, 0, 0, 0],
           false, false, true, false, 0, 96, 0, 0, 0, 0, true, 0, 0, 1,
           n, seq(MAX_CHANNELS, i => if i == 0 then track else -1))
  }

  lemma SendingTracks(n: ChannelCount, track: int)
    ensures forall max: nat | track < max :: Acceptable(Sending(n, track), max)
    ensures var tracks := Channels(Sending(n, track));
            |tracks| == n && forall i | 0 <= i < n :: tracks[i] == if i == 0 then track else -1
  {
  }

  /** The k-th of the streams that fill the table. */
  function Filler(k: nat): Stream {
    Sending(128, if k == 0 then 0 else -1)
  }

  /** The requests of the first `k` of them. */
  function Fillers(k: nat): seq<Request> {
    Adds(Filler, k)
  }

  // ------------------------------------------------------------------------------------------
  // Filling the table
  // ------------------------------------------------------------------------------------------

  /** The state after `k` of the streams: stream i has the 128 words from 128 * i on. */
  ghost predicate Filled(s: State, n: nat, k: nat) {
    && s.maxTracks == 2 && |s.used| == n && |s.hw.records| > k
    && (forall j | 0 <= j < n :: s.used[j] <==> j < 128 * k)
    && (forall i: nat :: i in s.streams <==> i < k)
    && (forall i | i in s.streams :: s.streams[i] == Elem(0, Filler(i), 128 * i))
  }

  /** A stream is added behind the ones that are there. */
  lemma AddsBehind(s: State, n: nat, k: nat, c: ChannelCount, track: int)
    requires Filled(s, n, k) && 0 < c && 128 * k + c <= n && track < 2
    ensures var b := 128 * k;
            AddStep(s, 0, Sending(c, track)) ==
            Install(s, Marked(s.used, b, c, true), [], k, Elem(0, Sending(c, track), b), true, Ok(k))
  {
    SendingTracks(c, track);
    NextIndex(s.streams, k, |s.hw.records|);
    NextBase(s.used, 128 * k, c);
  }

  lemma FillOne(s: State, n: nat, k: nat)
    requires Filled(s, n, k) && 128 * (k + 1) <= n && k + 1 < |s.hw.records|
    ensures var s' := Step(s, 0, Add(Filler(k))).state;
            Filled(s', n, k + 1) && |s'.hw.records| == |s.hw.records|
  {
    AddsBehind(s, n, k, 128, if k == 0 then 0 else -1);
  }

  lemma {:induction false} FillAll(n: nat, maxStreams: nat, k: nat, s: State)
    requires 128 * k <= n && k < maxStreams && s == Run(InitialState(n, 2, maxStreams), Fillers(k))
    ensures Filled(s, n, k) && |s.hw.records| == maxStreams
  {
    if k > 0 {
      var before := Run(InitialState(n, 2, maxStreams), Fillers(k - 1));
      FillAll(n, maxStreams, k - 1, before);
      RunAppend(Step, InitialState(n, 2, maxStreams), Fillers(k - 1), Request(0, Add(Filler(k - 1))));
      FillOne(before, n, k - 1);
    }
  }

  /** One stream more, behind `k` that fill the table. */
  function Wide(k: nat): seq<Request> {
    Fillers(k) + [Request(0, Add(Sending(1, 1)))]
  }

  lemma WideState(n: nat, k: nat, s: State)
    requires 1 < k && 128 * k < n && s == Run(InitialState(n, 2, k + 1), Wide(k))
    ensures s.maxTracks == 2 && |s.used| == n && |s.hw.records| == k + 1
    ensures forall j | 0 <= j < n :: s.used[j] <==> j <= 128 * k
    ensures forall i: nat :: i in s.streams <==> i <= k
    ensures forall i | i in s.streams ::
              s.streams[i] == if i == k then Elem(0, Sending(1, 1), 128 * k) else Elem(0, Filler(i), 128 * i)
  {
    var before := Run(InitialState(n, 2, k + 1), Fillers(k));
    FillAll(n, k + 1, k, before);
    RunAppend(Step, InitialState(n, 2, k + 1), Fillers(k), Request(0, Add(Sending(1, 1))));
    AddsBehind(before, n, k, 1, 1);
  }

  // ------------------------------------------------------------------------------------------
  // A stream that sends the wrong track
  // ------------------------------------------------------------------------------------------

  /** Only stream `k` has track 1, so a truncated base finds another word. */
  lemma TruncatedWord(s: Consistent, k: nat, b: nat)
    requires k in s.streams && s.streams[k] == Elem(0, Sending(1, 1), b) && b >= 0x1_0000
    requires forall i | i in s.streams && i != k :: 1 !in Channels(s.streams[i].stream)
    ensures k < |s.hw.records| && s.hw.records[k].valid && Points(s.hw.records[k], Lease(b, [1]))
    ensures b % 0x1_0000 < |s.hw.cells| && s.hw.cells[b % 0x1_0000] != Track(1)
  {
    SendingTracks(1, 1);
    var m := Leases(s.streams);
    assert m[k] == Lease(b, [1]) && b + 1 <= |s.hw.cells|;
    OneWord(s.used, s.hw.cells, m, k, 1, b % 0x1_0000);
  }

  /** What the hardware sends for each live stream is what it was asked for. */
  ghost predicate AllAsDescribed(s: State) {
    forall k | k in s.streams :: AsDescribed(s.hw, k, s.streams[k])
  }

  lemma WideMisroutes(n: nat, k: nat)
    requires 1 < k && 0x1_0000 <= 128 * k < n
    ensures !AllAsDescribed(Run(InitialState(n, 2, k + 1), Wide(k)))
  {
    var s := Run(InitialState(n, 2, k + 1), Wide(k));
    InitialInv(n, 2, k + 1);
    RunConsistent(InitialState(n, 2, k + 1), Wide(k), s);
    WideState(n, k, s);
    FillersRoute(s.streams, k);
    TruncatedWord(s, k, 128 * k);
    SendingTracks(1, 1);
    assert Channels(Sending(1, 1)) == [1];
    TruncatedReads(s.hw.cells, s.hw.records[k], 128 * k, 1);
    assert !AsDescribed(s.hw, k, s.streams[k]);
  }

  lemma FillersRoute(streams: map<nat, Elem>, k: nat)
    requires forall i | i in streams && i != k :: streams[i].stream == Filler(i)
    ensures forall i | i in streams && i != k :: 1 !in Channels(streams[i].stream)
  {
    SendingTracks(128, 0);
    SendingTracks(128, -1);
  }

  lemma SmallAsDescribed(s: Consistent)
    requires |s.hw.cells| <= 0x1_0000
    ensures AllAsDescribed(s)
  {
    SmallIsReadable(s.used, s.hw.cells, Leases(s.streams));
    forall k | k in s.streams ensures AsDescribed(s.hw, k, s.streams[k]) {
      assert Readable(Leases(s.streams)[k]);
      RoutingIsDescription(s, k);
    }
  }

  lemma RunAsDescribed(s: Consistent, reqs: seq<Request>)
    requires |s.hw.cells| <= 0x1_0000
    ensures AllAsDescribed(Run(s, reqs))
  {
    RunConsistent(s, reqs, Run(s, reqs));
    RunWritesEffect(s, reqs);
    SmallAsDescribed(Run(s, reqs));
  }

  /** After every run all streams send the tracks they were asked for if and only if the table has at
      most 65536 words. */
  lemma RoutedExactly(n: nat)
    ensures n <= 0x1_0000 <==>
            forall maxTracks: nat, maxStreams: nat, reqs: seq<Request> ::
              AllAsDescribed(Run(InitialState(n, maxTracks, maxStreams), reqs))
  {
    if n <= 0x1_0000 {
      forall maxTracks: nat, maxStreams: nat, reqs: seq<Request>
        ensures AllAsDescribed(Run(InitialState(n, maxTracks, maxStreams), reqs))
      {
        InitialInv(n, maxTracks, maxStreams);
        RunAsDescribed(InitialState(n, maxTracks, maxStreams), reqs);
      }
    } else {
      var k := FillCount(n);
      WideMisroutes(n, k);
    }
  }

  // ------------------------------------------------------------------------------------------
  // A failed command that can be observed
  // ------------------------------------------------------------------------------------------

  /** The table is filled up to the range of the last stream, which does not fit its record; then the
      range of stream 1 is freed. */
  function Holed(k: nat): seq<Request> {
    Wide(k) + [Request(0, Delete(1))]
  }

  /** The state then: words 128 to 255 are free, and those behind the last stream. */
  ghost predicate HoledState(s: State, n: nat, k: nat) {
    && s.maxTracks == 2 && |s.used| == n
    && (forall j | 0 <= j < n :: s.used[j] <==> j <= 128 * k && !(128 <= j < 256))
    && k in s.streams && s.streams[k] == Elem(0, Sending(1, 1), 128 * k)
    && (forall i | i in s.streams && i != k :: 1 !in Channels(s.streams[i].stream))
  }

  lemma HoledRun(n: nat, k: nat, s: State)
    requires 2 < k && 128 * k < n && s == Run(InitialState(n, 2, k + 1), Holed(k))
    ensures HoledState(s, n, k)
  {
    var wide := Run(InitialState(n, 2, k + 1), Wide(k));
    WideState(n, k, wide);
    RunAppend(Step, InitialState(n, 2, k + 1), Wide(k), Request(0, Delete(1)));
    assert s == FreeStream(wide, 1).state;
    FillersRoute(s.streams, k);
  }

  /** The update of the last stream to 256 channels finds no room, and its range moves into the hole. */
  lemma UpdateFails(s: State, n: nat, k: nat)
    requires HoledState(s, n, k) && 2 < k && 128 * k < n <= 128 * k + 128
    ensures var o := Step(s, 0, Update(k, Sending(256, 1)));
            o.result == Err(ENOSPC) && k in o.state.streams && o.state.streams[k] == Elem(0, Sending(1, 1), 128)
  {
    SendingTracks(256, 1);
    NoRoom(Marked(s.used, 128 * k, 1, false), k);
  }

  lemma MovedWord(s: Consistent, k: nat)
    requires k in s.streams && s.streams[k] == Elem(0, Sending(1, 1), 128)
    ensures k < |s.hw.records| && Routing(s.hw.cells, s.hw.records[k]) == Wanted([1])
  {
    SendingTracks(1, 1);
    RoutingIsDescription(s, k);
    assert Channels(Sending(1, 1)) == [1];
  }

  lemma FailureObserved(n: nat, k: nat)
    requires 2 < k && 0x1_0000 <= 128 * k < n <= 128 * k + 128
    ensures var s := Run(InitialState(n, 2, k + 1), Holed(k));
            var o := Step(s, 0, Update(k, Sending(256, 1)));
            o.result.Err? && !SameRouting(s.hw, o.state.hw)
  {
    var s := Run(InitialState(n, 2, k + 1), Holed(k));
    var o := Step(s, 0, Update(k, Sending(256, 1)));
    InitialInv(n, 2, k + 1);
    RunConsistent(InitialState(n, 2, k + 1), Holed(k), s);
    HoledRun(n, k, s);
    UpdateFails(s, n, k);
    StepKeeps(s, 0, Update(k, Sending(256, 1)));
    TruncatedWord(s, k, 128 * k);
    MovedWord(o.state, k);
    RoutingMoves(s.hw, o.state.hw, k, 128 * k, 1);
  }

  lemma SmallFailsUnseen(s: Consistent, reqs: seq<Request>, filp: Handle, cmd: Command, s': State)
    requires |s.hw.cells| <= 0x1_0000 && s' == Run(s, reqs) && Step(s', filp, cmd).result.Err?
    ensures SameRouting(s'.hw, Step(s', filp, cmd).state.hw)
  {
    RunConsistent(s, reqs, s');
    RunWritesEffect(s, reqs);
    SmallIsReadable(s'.used, s'.hw.cells, Leases(s'.streams));
    FailedIsNoOp(s', filp, cmd);
  }

  /** After every run failed commands leave the routing unchanged if and only if the table has at most
      65536 words. */
  lemma FailedExactly(n: nat)
    ensures n <= 0x1_0000 <==>
            forall maxTracks: nat, maxStreams: nat, reqs: seq<Request>, filp: Handle, cmd: Command ::
              var s := Run(InitialState(n, maxTracks, maxStreams), reqs);
              Step(s, filp, cmd).result.Err? ==> SameRouting(s.hw, Step(s, filp, cmd).state.hw)
  {
    if n <= 0x1_0000 {
      forall maxTracks: nat, maxStreams: nat, reqs: seq<Request>, filp: Handle, cmd: Command
        ensures var s := Run(InitialState(n, maxTracks, maxStreams), reqs);
                Step(s, filp, cmd).result.Err? ==> SameRouting(s.hw, Step(s, filp, cmd).state.hw)
      {
        var s := Run(InitialState(n, maxTracks, maxStreams), reqs);
        if Step(s, filp, cmd).result.Err? {
          InitialInv(n, maxTracks, maxStreams);
          SmallFailsUnseen(InitialState(n, maxTracks, maxStreams), reqs, filp, cmd, s);
        }
      }
    } else {
      var k := FillCount(n);
      FailureObserved(n, k);
    }
  }
}
