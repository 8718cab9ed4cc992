/**
 The TX side of the stream device: the ioctls, working in place, proved to do exactly what the
 command functions of `TxStreams` say, write by write.
 */
module TxDevice {
  import opened TrackTable
  import opened StreamCommon
  import opened TxStreams
  import opened StreamTables

  /** All entries of the track array are checked, also those behind the last channel. */
  method ValidateStream(s: Stream, maxTracks: nat) returns (ok: bool)
    ensures ok == ValidStream(s, maxTracks)
  {
    if (!s.usePrimary && !s.useSecondary)
       || (s.usePrimary && !ValidInterface(s.primary, s.vlanTagged))
       || (s.useSecondary && !ValidInterface(s.secondary, s.vlanTagged))
       || s.dscp >= 64
       || s.ssrc == 0
       || !ValidPayloadType(s.payloadType, s.numChannels, s.codec)
       || s.codec >= CODEC_MAX
    {
      return false;
    }
    for i := 0 to MAX_CHANNELS
      invariant forall j | 0 <= j < i :: s.tracks[j] < maxTracks
    {
      if s.tracks[i] >= maxTracks {
        return false;
      }
    }
    ok := true;
  }

  class Tx {
    const tables: Tables<Record>
    const maxTracks: nat
    var streams: map<nat, Elem>

    ghost function State(): State
      reads this, tables.used, tables.cells, tables.records
    {
      TxStreams.State(maxTracks, tables.used[..], streams, tables.Hw())
    }

    ghost predicate Valid()
      reads this, tables, tables.used, tables.cells, tables.records
    {
      tables.Valid() && Inv(State())
    }

    constructor (cells: array<Cell>, records: array<Record>, maxTracks: nat)
      modifies cells, records
      ensures Valid() && fresh(tables) && fresh(tables.used)
      ensures State() == InitialState(cells.Length, maxTracks, records.Length)
    {
      tables := new Tables<Record>(cells, records, ZERO_RECORD);
      this.maxTracks := maxTracks;
      streams := map[];
      new;
      assert State() == InitialState(cells.Length, maxTracks, records.Length);
      InitialInv(cells.Length, maxTracks, records.Length);
    }

    method SetRecord(index: nat, stream: Stream, base: nat, ipLength: nat, invalidate: bool)
      requires tables.Valid() && index < tables.records.Length
      modifies tables, tables.records
      ensures tables.Valid()
      ensures tables.log == old(tables.log) + RecordWrites(index, stream, base, ipLength, invalidate)
    {
      var record := Fill(stream, base, ipLength);
      if invalidate {
        tables.WriteRecord(index, record);
      }
      record := record.(valid := true);
      tables.WriteRecord(index, record);
    }

    /** The hardware after appending `ws` to a log that replayed to `hw`. */
    lemma Replayed(hw: Hardware<Record>, log: seq<Write<Record>>, ws: seq<Write<Record>>)
      requires tables.Valid() && hw == ApplyAll(tables.start, log) && tables.log == log + ws
      ensures tables.Hw() == ApplyAll(hw, ws)
    {
      ApplyAllConcat(tables.start, log, ws);
    }

    /** Stores an element and writes its tracks and record, after the writes `pre` to hardware `hw`. */
    method Store(index: nat, e: Elem, ipLength: nat, invalidate: bool,
                 ghost hw: Hardware<Record>, ghost log: seq<Write<Record>>, ghost pre: seq<Write<Record>>)
      requires tables.Valid() && index < tables.records.Length && ipLength == IpLength(e.stream)
      requires e.base + e.stream.numChannels <= tables.cells.Length
      requires hw == ApplyAll(tables.start, log) && tables.log == log + pre
      modifies this, tables, tables.cells, tables.records
      ensures tables.Valid()
      ensures streams == old(streams)[index := e]
      ensures tables.Hw() == ApplyAll(hw, InstallWrites(pre, index, e, invalidate))
      ensures tables.log == log + InstallWrites(pre, index, e, invalidate)
    {
      streams := streams[index := e];
      tables.Set(e.base, e.stream.numChannels, e.stream.tracks);
      SetRecord(index, e.stream, e.base, ipLength, invalidate);
      Replayed(hw, log, InstallWrites(pre, index, e, invalidate));
    }

    method AddStream(filp: Handle, stream: Stream) returns (r: Result)
      requires Valid()
      modifies this, tables, tables.used, tables.cells, tables.records
      ensures Valid()
      ensures State() == Step(old(State()), filp, Add(stream)).state
      ensures r == Step(old(State()), filp, Add(stream)).result
      ensures tables.log == old(tables.log) + Step(old(State()), filp, Add(stream)).writes
    {
      ghost var s := State();
      r := DoAdd(filp, stream);
      StepKeeps(s, filp, Add(stream));
    }

    method DoAdd(filp: Handle, stream: Stream) returns (r: Result)
      requires tables.Valid()
      modifies this, tables, tables.used, tables.cells, tables.records
      ensures tables.Valid()
      ensures State() == AddStep(old(State()), filp, stream).state
      ensures r == AddStep(old(State()), filp, stream).result
      ensures tables.log == old(tables.log) + AddStep(old(State()), filp, stream).writes
    {
      var valid := ValidateStream(stream, maxTracks);
      if !valid {
        return Err(EINVAL);
      }
      var ipLength := IpLength(stream);
      if ipLength > MAX_PACKET {
        return Err(EINVAL);
      }
      ghost var s, log := State(), tables.log;
      var index := AllocIndex(streams, tables.records.Length);
      if index.None? {
        return Err(EBUSY);
      }
      var k := index.value;
      var e := Elem(filp, stream, 0);
      streams := streams[k := e];
      var base := tables.Alloc(stream.numChannels);
      if base.None? {
        streams := streams - {k};
        InsertThen(old(streams), k, e, e);
        return Err(ENOSPC);
      }
      InsertThen(old(streams), k, e, e.(base := base.value));
      Store(k, e.(base := base.value), ipLength, true, s.hw, log, []);
      r := Ok(k);
    }

    /** What the stored elements guarantee about array bounds. */
    ghost predicate InRange(k: nat)
      reads this
    {
      k in streams ==>
        && k < tables.records.Length
        && streams[k].base + streams[k].stream.numChannels <= tables.cells.Length
    }

    lemma StateInRange(k: nat)
      requires tables.Valid() && Inv(State())
      ensures InRange(k)
    {
      if k in streams {
        assert Leases(streams)[k] == Lease(streams[k].base, Channels(streams[k].stream));
      }
    }

    method UpdateStream(filp: Handle, index: nat, stream: Stream) returns (r: Result)
      requires Valid()
      modifies this, tables, tables.used, tables.cells, tables.records
      ensures Valid()
      ensures State() == Step(old(State()), filp, Update(index, stream)).state
      ensures r == Step(old(State()), filp, Update(index, stream)).result
      ensures tables.log == old(tables.log) + Step(old(State()), filp, Update(index, stream)).writes
    {
      ghost var s := State();
      StateInRange(index);
      r := DoUpdate(filp, index, stream);
      StepKeeps(s, filp, Update(index, stream));
    }

    method DoUpdate(filp: Handle, index: nat, stream: Stream) returns (r: Result)
      requires tables.Valid() && InRange(index)
      modifies this, tables, tables.used, tables.cells, tables.records
      ensures tables.Valid()
      ensures State() == UpdateStep(old(State()), filp, index, stream).state
      ensures r == UpdateStep(old(State()), filp, index, stream).result
      ensures tables.log == old(tables.log) + UpdateStep(old(State()), filp, index, stream).writes
    {
      var valid := ValidateStream(stream, maxTracks);
      if !valid {
        return Err(EINVAL);
      }
      var ipLength := IpLength(stream);
      if ipLength > MAX_PACKET {
        return Err(EINVAL);
      }
      if index !in streams {
        return Err(ENOENT);
      }
      var e := streams[index];
      if e.owner != filp {
        return Err(EACCES);
      }
      ghost var s, log := State(), tables.log;
      if e.stream.numChannels != stream.numChannels {
        r := Resize(index, stream, ipLength);
      } else {
        Store(index, e.(stream := stream), ipLength, false, s.hw, log, []);
        r := Ok(0);
      }
    }

    /** A new number of channels: release, reallocate, and roll back if that fails. */
    method Resize(index: nat, stream: Stream, ipLength: nat) returns (r: Result)
      requires tables.Valid() && InRange(index) && index in streams && ipLength == IpLength(stream)
      modifies this, tables, tables.used, tables.cells, tables.records
      ensures tables.Valid()
      ensures State() == ResizeStep(old(State()), index, stream).state
      ensures r == ResizeStep(old(State()), index, stream).result
      ensures tables.log == old(tables.log) + ResizeStep(old(State()), index, stream).writes
    {
      var e := streams[index];
      var n := e.stream.numChannels;
      ghost var s, log := State(), tables.log;
      ghost var pre := FreeWrites<Record>(e.base, n);
      tables.Free(e.base, n);
      var base := tables.Alloc(stream.numChannels);
      if base.None? {
        base := tables.Alloc(n);
        r := Err(ENOSPC);
        if base.None? {
          Replayed(s.hw, log, pre);
          return;
        }
        Store(index, e.(base := base.value), IpLength(e.stream), false, s.hw, log, pre);
      } else {
        Store(index, Elem(e.owner, stream, base.value), ipLength, false, s.hw, log, pre);
        r := Ok(base.value);
      }
    }

    method FreeOne(index: nat)
      requires tables.Valid() && InRange(index) && index in streams
      modifies this, tables, tables.used, tables.cells, tables.records
      ensures tables.Valid()
      ensures State() == FreeStream(old(State()), index).state
      ensures tables.log == old(tables.log) + FreeStream(old(State()), index).writes
    {
      ghost var s, log := State(), tables.log;
      var e := streams[index];
      tables.Free(e.base, e.stream.numChannels);
      tables.WriteRecord(index, ZERO_RECORD);
      streams := streams - {index};
      Replayed(s.hw, log, FreeStreamWrites(s, index));
    }

    method DeleteStream(filp: Handle, index: nat) returns (r: Result)
      requires Valid()
      modifies this, tables, tables.used, tables.cells, tables.records
      ensures Valid()
      ensures State() == Step(old(State()), filp, Delete(index)).state
      ensures r == Step(old(State()), filp, Delete(index)).result
      ensures tables.log == old(tables.log) + Step(old(State()), filp, Delete(index)).writes
    {
      ghost var s := State();
      StateInRange(index);
      if index !in streams {
        return Err(ENOENT);
      }
      if streams[index].owner != filp {
        return Err(EACCES);
      }
      FreeOne(index);
      r := Ok(0);
      StepKeeps(s, filp, Delete(index));
    }

    ghost predicate AllInRange()
      requires tables.Valid()
      reads this, tables, tables.cells, tables.records
    {
      forall k | k in streams :: InRange(k)
    }

    method VisitIndex(filp: Handle, k: nat)
      requires tables.Valid() && AllInRange() && k < tables.records.Length
      modifies this, tables, tables.used, tables.cells, tables.records
      ensures tables.Valid() && AllInRange()
      ensures State() == Visit(old(State()), filp, k).state
      ensures tables.log == old(tables.log) + Visit(old(State()), filp, k).writes
    {
      if k in streams && streams[k].owner == filp {
        FreeOne(k);
      }
    }

    /** One round of closing; `all` is the outcome of closing since the log was `log`. */
    method CloseOne(filp: Handle, k: nat, ghost all: Outcome, ghost log: seq<Write<Record>>)
      requires tables.Valid() && AllInRange() && k < tables.records.Length
      requires all.state == CloseFrom(State(), filp, k).state
      requires log + all.writes == tables.log + CloseFrom(State(), filp, k).writes
      modifies this, tables, tables.used, tables.cells, tables.records
      ensures tables.Valid() && AllInRange()
      ensures all.state == CloseFrom(State(), filp, k + 1).state
      ensures log + all.writes == tables.log + CloseFrom(State(), filp, k + 1).writes
    {
      CloseUnfolds(State(), filp, k);
      VisitIndex(filp, k);
    }

    method DoClose(filp: Handle)
      requires tables.Valid() && AllInRange()
      modifies this, tables, tables.used, tables.cells, tables.records
      ensures tables.Valid()
      ensures State() == CloseFrom(old(State()), filp, 0).state
      ensures tables.log == old(tables.log) + CloseFrom(old(State()), filp, 0).writes
    {
      ghost var all, log := CloseFrom(State(), filp, 0), tables.log;
      for k := 0 to tables.records.Length
        invariant tables.Valid() && AllInRange()
        invariant all.state == CloseFrom(State(), filp, k).state
        invariant log + all.writes == tables.log + CloseFrom(State(), filp, k).writes
      {
        CloseOne(filp, k, all, log);
      }
    }

    /** Closing a handle: visit all indices, free the streams of the handle. */
    method CloseHandle(filp: Handle)
      requires Valid()
      modifies this, tables, tables.used, tables.cells, tables.records
      ensures Valid()
      ensures State() == Step(old(State()), filp, Close).state
      ensures tables.log == old(tables.log) + Step(old(State()), filp, Close).writes
    {
      ghost var s := State();
      forall k | k in streams ensures InRange(k) {
        StateInRange(k);
      }
      DoClose(filp);
      StepKeeps(s, filp, Close);
    }
  }
}
