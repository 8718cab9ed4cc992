/**
 The RX side of the stream device: the ioctls, working in place on bitmaps, tables and the stream
 index.  Each method is proved to do exactly what the command function of `RxStreams` says, write
 by write, and so inherits everything proved about runs of commands.
 */
module RxDevice {
  import opened Options
  import opened TrackTable
  import opened StreamCommon
  import opened TrackClaims
  import opened Windows
  import opened RxStreams
  import opened StreamTables
  import RxIsolation

  /** The first channel from `start` on with a track, or `n`. */
  method FindUsedTrack(start: nat, n: nat, tracks: seq<int>) returns (i: nat)
    requires start <= n <= |tracks|
    ensures start <= i <= n
    ensures forall j | start <= j < i :: tracks[j] < 0
    ensures i < n ==> tracks[i] >= 0
  {
    i := start;
    while i < n && tracks[i] < 0
      invariant start <= i <= n
      invariant forall j | start <= j < i :: tracks[j] < 0
    {
      i := i + 1;
    }
  }

  method ValidateStream(s: Stream, maxTracks: nat) returns (ok: bool)
    ensures ok == ValidStream(s, maxTracks)
  {
    if (s.primary.ip == 0 && s.secondary.ip == 0)
       || !ValidInterface(s.primary) || !ValidInterface(s.secondary)
       || (s.vlanTagged && s.vlanTag > 4095)
       || s.codec >= CODEC_MAX
       || s.numChannels > MAX_CHANNELS
       || !ValidPayloadType(s.payloadType, s.numChannels, s.codec)
    {
      return false;
    }
    for i := 0 to s.numChannels
      invariant forall j | 0 <= j < i :: s.tracks[j] < maxTracks
    {
      if s.tracks[i] >= maxTracks {
        assert s.tracks[..s.numChannels][i] >= maxTracks;
        return false;
      }
    }
    ok := true;
  }

  /** Channels that route nowhere do not influence the check. */
  lemma {:induction false} CheckSkips(claimed: seq<bool>, tracks: seq<int>, i: nat, j: nat)
    requires InBounds(tracks, |claimed|) && i <= j <= |tracks|
    requires forall c | i <= c < j :: tracks[c] < 0
    ensures CheckFrom(claimed, tracks, i) == CheckFrom(claimed, tracks, j)
    decreases j - i
  {
    if i < j {
      CheckSkips(claimed, tracks, i + 1, j);
    }
  }

  /** The availability check, with a temporary bitmap for the tracks of the stream itself. */
  method TracksAvailable(usedTracks: array<bool>, tracks: seq<int>) returns (r: Option<Errno>)
    requires InBounds(tracks, usedTracks.Length)
    ensures r == Check(usedTracks[..], tracks)
  {
    var n := |tracks|;
    var seen := new bool[usedTracks.Length](_ => false);
    ghost var claimed := usedTracks[..];
    var i := FindUsedTrack(0, n, tracks);
    CheckSkips(claimed, tracks, 0, i);
    while i < n
      invariant 0 <= i <= n && (i < n ==> tracks[i] >= 0)
      invariant usedTracks[..] == claimed
      invariant forall t | 0 <= t < seen.Length :: seen[t] <==> t in tracks[..i]
      invariant Check(claimed, tracks) == CheckFrom(claimed, tracks, i)
    {
      var t := tracks[i];
      r := None;
      if seen[t] {
        r := Some(EINVAL);
      }
      seen[t] := true;
      if usedTracks[t] {
        r := Some(EBUSY);
      }
      if r.Some? {
        return r;
      }
      var next := FindUsedTrack(i + 1, n, tracks);
      CheckSkips(claimed, tracks, i + 1, next);
      assert tracks[..next] == tracks[..i] + [t] + tracks[i + 1..next];
      i := next;
    }
    r := None;
  }

  method MarkTracks(usedTracks: array<bool>, tracks: seq<int>, value: bool)
    requires InBounds(tracks, usedTracks.Length)
    modifies usedTracks
    ensures usedTracks[..] == TracksMarked(old(usedTracks[..]), tracks, value)
  {
    var n := |tracks|;
    var i := FindUsedTrack(0, n, tracks);
    while i < n
      invariant 0 <= i <= n && (i < n ==> tracks[i] >= 0)
      invariant forall t | 0 <= t < usedTracks.Length ::
                  usedTracks[t] == if t in tracks[..i] then value else old(usedTracks[t])
    {
      usedTracks[tracks[i]] := value;
      var next := FindUsedTrack(i + 1, n, tracks);
      assert tracks[..next] == tracks[..i] + [tracks[i]] + tracks[i + 1..next];
      i := next;
    }
    assert tracks[..n] == tracks;
  }

  class Rx {
    const tables: Tables<Record>
    const usedTracks: array<bool>
    var streams: map<nat, Elem>

    ghost function State(): State
      reads this, tables.used, tables.cells, tables.records, usedTracks
    {
      RxStreams.State(tables.used[..], usedTracks[..], streams, tables.Hw())
    }

    /** The arrays are distinct and the log replays to the hardware. */
    ghost predicate Wired()
      reads this, tables, tables.cells, tables.records
    {
      tables.Valid() && usedTracks != tables.used && usedTracks as object != tables.records
    }

    ghost predicate Valid()
      reads this, tables, tables.used, tables.cells, tables.records, usedTracks
    {
      && Wired()
      && Inv(State())
      && (tables.cells.Length <= 0x1_0000 ==> IsolatedAlong(tables.start, tables.log))
    }

    constructor (cells: array<Cell>, records: array<Record>, maxTracks: nat)
      modifies cells, records
      ensures Valid() && fresh(tables) && fresh(tables.used) && fresh(usedTracks)
      ensures State() == InitialState(cells.Length, maxTracks, records.Length)
    {
      tables := new Tables<Record>(cells, records, ZERO_RECORD);
      usedTracks := new bool[maxTracks](_ => false);
      streams := map[];
      new;
      assert State() == InitialState(cells.Length, maxTracks, records.Length);
      InitialInv(cells.Length, maxTracks, records.Length);
      if tables.cells.Length <= 0x1_0000 {
        Isolates(State());
      }
    }

    static lemma Isolates(s: Consistent)
      requires |s.hw.cells| <= 0x1_0000
      ensures IsolatedAlong(s.hw, [])
    {
      SmallIsReadable(s.used, s.hw.cells, Leases(s.streams));
      RxIsolation.IdleGuards(s, Leases(s.streams));
      GuardedAlongIsIsolated(s.hw, [], Leases(s.streams));
    }

    /** Invalidate, fill, then validate the record of a stream. */
    method SetRecord(index: nat, stream: Stream, base: nat)
      requires Wired() && index < tables.records.Length
      modifies tables, tables.records
      ensures Wired()
      ensures tables.log == old(tables.log) + RecordWrites(index, stream, base)
    {
      var record := ZERO_RECORD;
      tables.WriteRecord(index, record);
      record := Fill(stream, base);
      tables.WriteRecord(index, record);
      record := record.(valid := true, details := record.details.(execHash := true));
      tables.WriteRecord(index, record);
    }

    /** The hardware after appending `ws` to a log that replayed to `hw`. */
    lemma Replayed(hw: Hardware<Record>, log: seq<Write<Record>>, ws: seq<Write<Record>>)
      requires Wired() && hw == ApplyAll(tables.start, log) && tables.log == log + ws
      ensures tables.Hw() == ApplyAll(hw, ws)
    {
      ApplyAllConcat(tables.start, log, ws);
    }

    /** Stores an element and writes its tracks and record, after the writes `pre` to hardware `hw`. */
    method Store(index: nat, e: Elem, ghost hw: Hardware<Record>, ghost log: seq<Write<Record>>,
                 ghost pre: seq<Write<Record>>)
      requires Wired() && index < tables.records.Length
      requires e.stream.numChannels <= MAX_CHANNELS && e.base + e.stream.numChannels <= tables.cells.Length
      requires hw == ApplyAll(tables.start, log) && tables.log == log + pre
      modifies this, tables, tables.cells, tables.records
      ensures Wired()
      ensures streams == old(streams)[index := e]
      ensures tables.Hw() == ApplyAll(hw, InstallWrites(pre, index, e))
      ensures tables.log == log + InstallWrites(pre, index, e)
    {
      streams := streams[index := e];
      tables.Set(e.base, e.stream.numChannels, e.stream.tracks);
      SetRecord(index, e.stream, e.base);
      Replayed(hw, log, InstallWrites(pre, index, e));
    }

    /** Having done what a command says leaves the device valid. */
    lemma Finish(s: Consistent, log: seq<Write<Record>>, filp: Handle, cmd: Command)
      requires s.hw == ApplyAll(tables.start, log)
      requires tables.cells.Length <= 0x1_0000 ==> IsolatedAlong(tables.start, log)
      requires Wired() && State() == Step(s, filp, cmd).state
      requires tables.log == log + Step(s, filp, cmd).writes
      ensures Valid()
    {
      StepKeeps(s, filp, cmd);
      if tables.cells.Length <= 0x1_0000 {
        var o := Step(s, filp, cmd);
        SmallIsReadable(s.used, s.hw.cells, Leases(s.streams));
        SmallIsReadable(o.state.used, o.state.hw.cells, Leases(o.state.streams));
        RxIsolation.StepIsolated(s, filp, cmd);
        IsolatedConcat(tables.start, log, o.writes);
      }
    }

    method AddStream(filp: Handle, stream: Stream) returns (r: Result)
      requires Valid()
      modifies this, tables, tables.used, tables.cells, tables.records, usedTracks
      ensures Valid()
      ensures State() == Step(old(State()), filp, Add(stream)).state
      ensures r == Step(old(State()), filp, Add(stream)).result
      ensures tables.log == old(tables.log) + Step(old(State()), filp, Add(stream)).writes
    {
      ghost var s, log := State(), tables.log;
      r := DoAdd(filp, stream);
      Finish(s, log, filp, Add(stream));
    }

    method DoAdd(filp: Handle, stream: Stream) returns (r: Result)
      requires Wired()
      modifies this, tables, tables.used, tables.cells, tables.records, usedTracks
      ensures Wired()
      ensures State() == AddStep(old(State()), filp, stream).state
      ensures r == AddStep(old(State()), filp, stream).result
      ensures tables.log == old(tables.log) + AddStep(old(State()), filp, stream).writes
    {
      var valid := ValidateStream(stream, usedTracks.Length);
      if !valid {
        return Err(EINVAL);
      }
      var tracks := stream.tracks[..stream.numChannels];
      var refused := TracksAvailable(usedTracks, tracks);
      if refused.Some? {
        return Err(refused.value);
      }
      ghost var s, log := State(), tables.log;
      var index := AllocIndex(streams, tables.records.Length);
      if index.None? {
        return Err(EBUSY);
      }
      var k := index.value;
      var e := Elem(filp, stream, 0);
      streams := streams[k := e];
      var base := tables.Alloc(stream.numChannels);
      if base.None? {
        streams := streams - {k};
        InsertThen(old(streams), k, e, e);
        return Err(ENOSPC);
      }
      MarkTracks(usedTracks, tracks, true);
      InsertThen(old(streams), k, e, e.(base := base.value));
      Store(k, e.(base := base.value), s.hw, log, []);
      r := Ok(k);
    }

    /** What the stored elements guarantee about array bounds. */
    ghost predicate InRange(k: nat)
      reads this
    {
      k in streams ==>
        && k < tables.records.Length
        && streams[k].stream.numChannels <= MAX_CHANNELS
        && streams[k].base + streams[k].stream.numChannels <= tables.cells.Length
        && InBounds(Channels(streams[k].stream), usedTracks.Length)
    }

    lemma StateInRange(k: nat)
      requires Wired() && Inv(State())
      ensures InRange(k)
    {
      if k in streams {
        assert Leases(streams)[k] == Lease(streams[k].base, Channels(streams[k].stream));
      }
    }

    method UpdateStream(filp: Handle, index: nat, stream: Stream) returns (r: Result)
      requires Valid()
      modifies this, tables, tables.used, tables.cells, tables.records, usedTracks
      ensures Valid()
      ensures State() == Step(old(State()), filp, Update(index, stream)).state
      ensures r == Step(old(State()), filp, Update(index, stream)).result
      ensures tables.log == old(tables.log) + Step(old(State()), filp, Update(index, stream)).writes
    {
      ghost var s, log := State(), tables.log;
      StateInRange(index);
      r := DoUpdate(filp, index, stream);
      Finish(s, log, filp, Update(index, stream));
    }

    method DoUpdate(filp: Handle, index: nat, stream: Stream) returns (r: Result)
      requires Wired() && InRange(index)
      modifies this, tables, tables.used, tables.cells, tables.records, usedTracks
      ensures Wired()
      ensures State() == UpdateStep(old(State()), filp, index, stream).state
      ensures r == UpdateStep(old(State()), filp, index, stream).result
      ensures tables.log == old(tables.log) + UpdateStep(old(State()), filp, index, stream).writes
    {
      var valid := ValidateStream(stream, usedTracks.Length);
      if !valid {
        return Err(EINVAL);
      }
      if index !in streams {
        return Err(ENOENT);
      }
      var e := streams[index];
      if e.owner != filp {
        return Err(EACCES);
      }
      ghost var s, log := State(), tables.log;
      MarkTracks(usedTracks, e.stream.tracks[..e.stream.numChannels], false);
      var refused := TracksAvailable(usedTracks, stream.tracks[..stream.numChannels]);
      if refused.Some? {
        MarkTracks(usedTracks, e.stream.tracks[..e.stream.numChannels], true);
        return Err(refused.value);
      }
      if e.stream.numChannels != stream.numChannels {
        r := Resize(index, stream, s);
      } else {
        MarkTracks(usedTracks, stream.tracks[..stream.numChannels], true);
        Store(index, e.(stream := stream), s.hw, log, []);
        r := Ok(0);
      }
    }

    /** A new number of channels: release, reallocate, and roll back if that fails.  The claims of
        the stored stream, in `s` before this call, are already dropped. */
    method Resize(index: nat, stream: Stream, ghost s: State) returns (r: Result)
      requires Wired() && InRange(index) && index in streams && ValidStream(stream, usedTracks.Length)
      requires State() == s.(claimed := TracksMarked(s.claimed, Channels(streams[index].stream), false))
      modifies this, tables, tables.used, tables.cells, tables.records, usedTracks
      ensures Wired()
      ensures State() == ResizeStep(s, index, stream).state
      ensures r == ResizeStep(s, index, stream).result
      ensures tables.log == old(tables.log) + ResizeStep(s, index, stream).writes
    {
      var e := streams[index];
      var n := e.stream.numChannels;
      ghost var log := tables.log;
      ghost var pre := FreeWrites<Record>(e.base, n);
      tables.Free(e.base, n);
      var base := tables.Alloc(stream.numChannels);
      if base.None? {
        base := tables.Alloc(n);
        MarkTracks(usedTracks, e.stream.tracks[..n], true);
        r := Err(ENOSPC);
        if base.None? {
          Replayed(s.hw, log, pre);
          return;
        }
        e := e.(base := base.value);
      } else {
        e := Elem(e.owner, stream, base.value);
        MarkTracks(usedTracks, stream.tracks[..stream.numChannels], true);
        r := Ok(base.value);
      }
      Store(index, e, s.hw, log, pre);
    }

    method FreeOne(index: nat)
      requires Wired() && InRange(index) && index in streams
      modifies this, tables, tables.used, tables.cells, tables.records, usedTracks
      ensures Wired()
      ensures State() == FreeStream(old(State()), index).state
      ensures tables.log == old(tables.log) + FreeStream(old(State()), index).writes
    {
      ghost var s, log := State(), tables.log;
      var e := streams[index];
      tables.Free(e.base, e.stream.numChannels);
      MarkTracks(usedTracks, e.stream.tracks[..e.stream.numChannels], false);
      var record := tables.records[index];
      record := record.(valid := false, active := false, details := record.details.(execHash := true));
      tables.WriteRecord(index, record);
      streams := streams - {index};
      Replayed(s.hw, log, FreeStreamWrites(s, index));
    }

    method DeleteStream(filp: Handle, index: nat) returns (r: Result)
      requires Valid()
      modifies this, tables, tables.used, tables.cells, tables.records, usedTracks
      ensures Valid()
      ensures State() == Step(old(State()), filp, Delete(index)).state
      ensures r == Step(old(State()), filp, Delete(index)).result
      ensures tables.log == old(tables.log) + Step(old(State()), filp, Delete(index)).writes
    {
      ghost var s, log := State(), tables.log;
      StateInRange(index);
      r := DoDelete(filp, index);
      Finish(s, log, filp, Delete(index));
    }

    method DoDelete(filp: Handle, index: nat) returns (r: Result)
      requires Wired() && InRange(index)
      modifies this, tables, tables.used, tables.cells, tables.records, usedTracks
      ensures Wired()
      ensures State() == DeleteStep(old(State()), filp, index).state
      ensures r == DeleteStep(old(State()), filp, index).result
      ensures tables.log == old(tables.log) + DeleteStep(old(State()), filp, index).writes
    {
      if index !in streams {
        return Err(ENOENT);
      }
      if streams[index].owner != filp {
        return Err(EACCES);
      }
      FreeOne(index);
      r := Ok(0);
    }

    ghost predicate AllInRange()
      requires Wired()
      reads this, tables, tables.cells, tables.records
    {
      forall k | k in streams :: InRange(k)
    }

    method VisitIndex(filp: Handle, k: nat)
      requires Wired() && AllInRange() && k < tables.records.Length
      modifies this, tables, tables.used, tables.cells, tables.records, usedTracks
      ensures Wired() && AllInRange()
      ensures State() == Visit(old(State()), filp, k).state
      ensures tables.log == old(tables.log) + Visit(old(State()), filp, k).writes
    {
      if k in streams && streams[k].owner == filp {
        FreeOne(k);
      }
    }

    /** One round of closing; `all` is the outcome of closing since the log was `log`. */
    method CloseOne(filp: Handle, k: nat, ghost all: Outcome, ghost log: seq<Write<Record>>)
      requires Wired() && AllInRange() && k < tables.records.Length
      requires all.state == CloseFrom(State(), filp, k).state
      requires log + all.writes == tables.log + CloseFrom(State(), filp, k).writes
      modifies this, tables, tables.used, tables.cells, tables.records, usedTracks
      ensures Wired() && AllInRange()
      ensures all.state == CloseFrom(State(), filp, k + 1).state
      ensures log + all.writes == tables.log + CloseFrom(State(), filp, k + 1).writes
    {
      CloseUnfolds(State(), filp, k);
      VisitIndex(filp, k);
    }

    method DoClose(filp: Handle)
      requires Wired() && AllInRange()
      modifies this, tables, tables.used, tables.cells, tables.records, usedTracks
      ensures Wired()
      ensures State() == CloseFrom(old(State()), filp, 0).state
      ensures tables.log == old(tables.log) + CloseFrom(old(State()), filp, 0).writes
    {
      ghost var all, log := CloseFrom(State(), filp, 0), tables.log;
      for k := 0 to tables.records.Length
        invariant Wired() && AllInRange()
        invariant all.state == CloseFrom(State(), filp, k).state
        invariant log + all.writes == tables.log + CloseFrom(State(), filp, k).writes
      {
        CloseOne(filp, k, all, log);
      }
    }

    /** Closing a handle: visit all indices, free the streams of the handle. */
    method CloseHandle(filp: Handle)
      requires Valid()
      modifies this, tables, tables.used, tables.cells, tables.records, usedTracks
      ensures Valid()
      ensures State() == Step(old(State()), filp, Close).state
      ensures tables.log == old(tables.log) + Step(old(State()), filp, Close).writes
    {
      ghost var s, log := State(), tables.log;
      forall k | k in streams ensures InRange(k) {
        StateInRange(k);
      }
      DoClose(filp);
      Finish(s, log, filp, Close);
    }
  }
}
