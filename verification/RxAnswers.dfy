/**
 What an RX command answers and stores, told from the live streams alone: when it succeeds, which error
 it returns otherwise, and what a stream added or updated looks like afterwards.
 */
module RxAnswers {
  import opened TrackTable
  import opened StreamCommon
  import opened TrackClaims
  import opened Windows
  import opened RxStreams
  import opened RxRuns

  // ------------------------------------------------------------------------------------------
  // Add
  // ------------------------------------------------------------------------------------------

  ghost predicate AddAnswer(s: State, filp: Handle, stream: Stream, r: Result, streams': map<nat, Elem>) {
    var m, tracks, size := Leases(s.streams), Channels(stream), |s.hw.cells|;
    match r
    case Ok(k) =>
      && ValidStream(stream, |s.claimed|) && TracksFree(m, tracks) && LeastIndex(s.streams, |s.hw.records|, k)
      && exists b :: LowestRoom(m, size, |tracks|, b) && streams' == s.streams[k := Elem(filp, stream, b)]
    case Err(e) =>
      && streams' == s.streams
      && if !ValidStream(stream, |s.claimed|) then e == EINVAL
         else if !TracksFree(m, tracks) then TrackError(m, tracks, e)
         else if forall i: nat | i < |s.hw.records| :: i in s.streams then e == EBUSY
         else e == ENOSPC && !Room(m, size, |tracks|)
  }

  lemma AddFrom(s: State, filp: Handle, stream: Stream)
    requires ValidStream(stream, |s.claimed|)
    requires Verdict(Leases(s.streams), Channels(stream), Check(s.claimed, Channels(stream)))
    requires Placed(Leases(s.streams), |s.hw.cells|, |Channels(stream)|, FirstFit(s.used, |Channels(stream)|))
    ensures var o := AddStep(s, filp, stream); AddAnswer(s, filp, stream, o.result, o.state.streams)
  {
  }

  /** Add answers as the live streams demand. */
  lemma AddAnswers(s: Consistent, filp: Handle, stream: Stream)
    ensures var o := Step(s, filp, Add(stream)); AddAnswer(s, filp, stream, o.result, o.state.streams)
  {
    if ValidStream(stream, |s.claimed|) {
      CheckReturns(s.claimed, Leases(s.streams), Channels(stream));
      FirstFitIsLowest(s.used, s.hw.cells, Leases(s.streams), |Channels(stream)|);
      AddFrom(s, filp, stream);
    } else {
      assert AddStep(s, filp, stream) == Refuse(s, EINVAL);
    }
  }

  // ------------------------------------------------------------------------------------------
  // Update
  // ------------------------------------------------------------------------------------------

  /** What an update needs beside a valid description and the right owner. */
  ghost predicate UpdateFits(s: State, k: nat, stream: Stream)
    requires k in s.streams
  {
    || stream.numChannels == s.streams[k].stream.numChannels
    || Room(Leases(s.streams) - {k}, |s.hw.cells|, |Channels(stream)|)
  }

  ghost predicate UpdateAnswer(s: State, filp: Handle, k: nat, stream: Stream, r: Result, streams': map<nat, Elem>) {
    var m, tracks := Leases(s.streams) - {k}, Channels(stream);
    match r
    case Ok(_) =>
      && ValidStream(stream, |s.claimed|) && k in s.streams && s.streams[k].owner == filp
      && TracksFree(m, tracks) && UpdateFits(s, k, stream)
      && k in streams' && streams' == s.streams[k := Elem(filp, stream, streams'[k].base)]
      && if stream.numChannels == s.streams[k].stream.numChannels
         then streams'[k].base == s.streams[k].base && r == Ok(0)
         else LowestRoom(m, |s.hw.cells|, |tracks|, streams'[k].base) && r.value == streams'[k].base
    case Err(e) =>
      if !ValidStream(stream, |s.claimed|) then e == EINVAL
      else if k !in s.streams then e == ENOENT
      else if s.streams[k].owner != filp then e == EACCES
      else if !TracksFree(m, tracks) then TrackError(m, tracks, e)
      else e == ENOSPC && !UpdateFits(s, k, stream)
  }

  lemma UpdateFrom(s: State, filp: Handle, k: nat, stream: Stream)
    requires ValidStream(stream, |s.claimed|) && k in s.streams && s.streams[k].owner == filp
    requires var m, l := Leases(s.streams) - {k}, LeaseOf(s.streams[k]);
             && Verdict(m, Channels(stream), Check(TracksMarked(s.claimed, l.tracks, false), Channels(stream)))
             && Placed(m, |s.hw.cells|, |Channels(stream)|,
                       FirstFit(Marked(s.used, l.base, |l.tracks|, false), |Channels(stream)|))
    ensures var o := UpdateStep(s, filp, k, stream); UpdateAnswer(s, filp, k, stream, o.result, o.state.streams)
  {
  }

  /** Update answers as the live streams demand, and stores the new description. */
  lemma UpdateAnswers(s: Consistent, filp: Handle, k: nat, stream: Stream)
    ensures var o := Step(s, filp, Update(k, stream)); UpdateAnswer(s, filp, k, stream, o.result, o.state.streams)
  {
    if ValidStream(stream, |s.claimed|) && k in s.streams && s.streams[k].owner == filp {
      var m := Leases(s.streams);
      UnclaimKeeps(s.claimed, m, k);
      CheckReturns(TracksMarked(s.claimed, m[k].tracks, false), m - {k}, Channels(stream));
      ReleasedFitIsLowest(s.used, s.hw.cells, m, k, |Channels(stream)|);
      UpdateFrom(s, filp, k, stream);
    }
  }

  // ------------------------------------------------------------------------------------------
  // Delete
  // ------------------------------------------------------------------------------------------

  /** Delete removes exactly the stream named, if it is one of the handle's. */
  lemma DeleteAnswers(s: Consistent, filp: Handle, k: nat)
    ensures var o := Step(s, filp, Delete(k));
            && o.state.streams == (if o.result.Ok? then s.streams - {k} else s.streams)
            && o.result == if k !in s.streams then Err(ENOENT)
                           else if s.streams[k].owner != filp then Err(EACCES)
                           else Ok(0)
  {
  }

  // ------------------------------------------------------------------------------------------
  // What is stored is what the hardware does
  // ------------------------------------------------------------------------------------------

  lemma StoredAsDescribed(s: Consistent, k: nat)
    requires k in s.streams && Readable(LeaseOf(s.streams[k]))
    ensures AsDescribed(s.hw, k, s.streams[k])
  {
    RoutingIsDescription(s, k);
  }

  /** A stream that was added is routed as described, for the handle that added it. */
  lemma AddedIsRouted(s: Consistent, filp: Handle, stream: Stream) returns (b: nat)
    requires Step(s, filp, Add(stream)).result.Ok?
    ensures var o := Step(s, filp, Add(stream));
            && o.result.value !in s.streams
            && o.state.streams == s.streams[o.result.value := Elem(filp, stream, b)]
            && (Readable(Lease(b, Channels(stream))) ==> AsDescribed(o.state.hw, o.result.value, Elem(filp, stream, b)))
  {
    var o := Step(s, filp, Add(stream));
    AddAnswers(s, filp, stream);
    b := o.state.streams[o.result.value].base;
    StepKeeps(s, filp, Add(stream));
    if Readable(Lease(b, Channels(stream))) {
      StoredAsDescribed(o.state, o.result.value);
    }
  }

  /** A stream that was updated is routed as its new description says. */
  lemma UpdatedIsRouted(s: Consistent, filp: Handle, k: nat, stream: Stream) returns (b: nat)
    requires Step(s, filp, Update(k, stream)).result.Ok?
    ensures var o := Step(s, filp, Update(k, stream));
            && k in s.streams && s.streams[k].owner == filp
            && o.state.streams == s.streams[k := Elem(filp, stream, b)]
            && (Readable(Lease(b, Channels(stream))) ==> AsDescribed(o.state.hw, k, Elem(filp, stream, b)))
  {
    var o := Step(s, filp, Update(k, stream));
    UpdateAnswers(s, filp, k, stream);
    b := o.state.streams[k].base;
    StepKeeps(s, filp, Update(k, stream));
    if Readable(Lease(b, Channels(stream))) {
      StoredAsDescribed(o.state, k);
    }
  }

  /** When add succeeds. */
  lemma AddSucceedsExactly(s: Consistent, filp: Handle, stream: Stream)
    ensures Step(s, filp, Add(stream)).result.Ok? <==>
            && ValidStream(stream, |s.claimed|)
            && TracksFree(Leases(s.streams), Channels(stream))
            && (exists i: nat :: i < |s.hw.records| && i !in s.streams)
            && Room(Leases(s.streams), |s.hw.cells|, |Channels(stream)|)
  {
    AddAnswers(s, filp, stream);
  }

  /** When update succeeds. */
  lemma UpdateSucceedsExactly(s: Consistent, filp: Handle, k: nat, stream: Stream)
    ensures Step(s, filp, Update(k, stream)).result.Ok? <==>
            && ValidStream(stream, |s.claimed|)
            && k in s.streams && s.streams[k].owner == filp
            && TracksFree(Leases(s.streams) - {k}, Channels(stream))
            && UpdateFits(s, k, stream)
  {
    UpdateAnswers(s, filp, k, stream);
  }
}
