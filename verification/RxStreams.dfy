/**
 RX streams at value level: stream descriptions, the hardware stream record, and the four commands
 (add, update, delete, close of a handle) as functions from a state to a state, a result and the
 exact sequence of hardware writes.
 */
module RxStreams {
  import opened TrackTable
  import opened StreamCommon
  import opened TrackClaims
  import opened Windows
  import opened Runs

  /** Addresses are in host order; a zero address means the interface is not used. */
  datatype Interface = Interface(ip: nat, port: nat)

  datatype Stream = Stream(
    primary: Interface, secondary: Interface,
    syncSource: bool, vlanTagged: bool, hitless: bool, synchronous: bool, rtpFilter: bool,
    codec: nat, payloadType: nat, active: bool,
    vlanTag: nat, jitterMargin: nat, rtpOffset: nat, ssrc: nat,
    numChannels: nat, tracks: Tracks)

  // ------------------------------------------------------------------------------------------
  // Validation
  // ------------------------------------------------------------------------------------------

  predicate ValidInterface(i: Interface) {
    i.ip != 0 ==> i.port != 0
  }

  predicate ValidStream(s: Stream, maxTracks: nat) {
    && !(s.primary.ip == 0 && s.secondary.ip == 0)
    && ValidInterface(s.primary)
    && ValidInterface(s.secondary)
    && !(s.vlanTagged && s.vlanTag > 4095)
    && s.codec < CODEC_MAX
    && s.numChannels <= MAX_CHANNELS
    && ValidPayloadType(s.payloadType, s.numChannels, s.codec)
    && InBounds(s.tracks[..s.numChannels], maxTracks)
  }

  /** The channels of a stream: the track of each, negative for "routed nowhere". */
  function Channels(s: Stream): seq<int> {
    if s.numChannels <= MAX_CHANNELS then s.tracks[..s.numChannels] else s.tracks
  }

  // ------------------------------------------------------------------------------------------
  // The hardware stream record
  // ------------------------------------------------------------------------------------------

  /** The part of a record that only describes the stream. */
  datatype Details = Details(
    primary: Interface, secondary: Interface,
    codec: nat, rtpOffset: nat, jitterMargin: nat, ssrc: nat, payloadType: nat, filterVlan: nat,
    syncSource: bool, vlan: bool, hitless: bool, synchronous: bool, execHash: bool)

  type Record = StreamRecord<Details>

  const ZERO_RECORD: Record := StreamRecord(
    Details(Interface(0, 0), Interface(0, 0), 0, 0, 0, 0, 0, 0, false, false, false, false, false), 0, 0, false, false)

  /** A stream with a single destination gets it in both interfaces, so that no valid stream has a
      record with a zero address. */
  function DetailsOf(s: Stream): (d: Details)
    ensures s.primary.ip != 0 || s.secondary.ip != 0 ==> d.primary.ip != 0 && d.secondary.ip != 0
    ensures ValidInterface(s.primary) && ValidInterface(s.secondary) && d.primary.ip != 0 ==>
              d.primary.port != 0 && d.secondary.port != 0
    ensures s.primary.ip != 0 ==> d.primary == s.primary
    ensures s.secondary.ip != 0 ==> d.secondary == s.secondary
  {
    var primary := if s.primary.ip == 0 then s.secondary else s.primary;
    Details(
      primary, if s.secondary.ip == 0 then primary else s.secondary,
      CodecCode(s.codec), s.rtpOffset, s.jitterMargin, s.ssrc, s.payloadType,
      s.vlanTag % 0x1000 + (if s.rtpFilter then 0x8000 else 0),
      s.syncSource, s.vlanTagged, s.hitless, s.synchronous, false)
  }

  /** The record of a stream leased at `base`, before it is made valid.  The channel count is an
      8-bit field and the base a 16-bit field. */
  function Fill(s: Stream, base: nat): Record {
    StreamRecord(DetailsOf(s), s.numChannels % 0x100, base % 0x1_0000, false, s.active)
  }

  function LiveRecord(s: Stream, base: nat): Record {
    StreamRecord(DetailsOf(s).(execHash := true), s.numChannels % 0x100, base % 0x1_0000, true, s.active)
  }

  /** Read back from its record, a valid stream is as described: the destinations are those in use,
      the codec is the only one with that code, and filter flag and VLAN id share a field. */
  lemma RecordReadsBack(s: Stream, maxTracks: nat, base: nat)
    requires ValidStream(s, maxTracks)
    ensures var r := LiveRecord(s, base);
            var d := r.details;
            && r.valid && r.active == s.active && d.execHash
            && r.numChannels == s.numChannels % 0x100 && r.base == base % 0x1_0000
            && {d.primary, d.secondary} == set i | i in {s.primary, s.secondary} && i.ip != 0
            && (forall c: nat | c < CODEC_MAX :: CodecCode(c) == d.codec <==> c == s.codec)
            && (d.filterVlan >= 0x8000 <==> s.rtpFilter)
            && (s.vlanTagged ==> d.filterVlan % 0x8000 == s.vlanTag)
            && d.rtpOffset == s.rtpOffset && d.jitterMargin == s.jitterMargin
            && d.ssrc == s.ssrc && d.payloadType == s.payloadType
            && d.syncSource == s.syncSource && d.vlan == s.vlanTagged
            && d.hitless == s.hitless && d.synchronous == s.synchronous
  {
    var d := LiveRecord(s, base).details;
    assert d.primary in {s.primary, s.secondary} && d.secondary in {s.primary, s.secondary};
    forall c: nat | c < CODEC_MAX ensures CodecCode(c) == d.codec <==> c == s.codec {
      CodecsDiffer(c, s.codec);
    }
  }

  /** A stream is valid exactly if its record has no zero address or port and keeps its VLAN id, and its
      codec, payload type, channel count and tracks are ones there are. */
  lemma ValidExactly(s: Stream, maxTracks: nat)
    ensures ValidStream(s, maxTracks) <==>
            var d := DetailsOf(s);
            && 0 !in {d.primary.ip, d.primary.port, d.secondary.ip, d.secondary.port}
            && (s.vlanTagged ==> d.filterVlan % 0x8000 == s.vlanTag)
            && s.codec in {AM824, L32, L24, L16}
            && s.numChannels <= |s.tracks|
            && AllowedPayloadType(s.payloadType, s.numChannels, s.codec)
            && (forall i | 0 <= i < s.numChannels :: s.tracks[i] < maxTracks)
  {
    PayloadTypes(s.payloadType, s.numChannels, s.codec);
    if s.numChannels <= MAX_CHANNELS {
      assert forall i | 0 <= i < s.numChannels :: s.tracks[..s.numChannels][i] == s.tracks[i];
    }
  }

  /** A deleted record is invalid and inactive, triggers the hash, and is otherwise what it was. */
  lemma DeadRecordKeeps(r: Record)
    ensures var dead := DeadRecord(r);
            && !dead.valid && !dead.active && dead.details.execHash
            && r == dead.(valid := r.valid, active := r.active,
                          details := dead.details.(execHash := r.details.execHash))
  {
  }

  /** Invalidate, fill, then make valid and trigger the hash. */
  function RecordWrites(k: nat, s: Stream, base: nat): seq<Write<Record>> {
    [RecordWrite(k, ZERO_RECORD), RecordWrite(k, Fill(s, base)), RecordWrite(k, LiveRecord(s, base))]
  }

  function DeadRecord(r: Record): Record {
    r.(valid := false, active := false, details := r.details.(execHash := true))
  }

  lemma RecordWritesEffect(hw: Hardware<Record>, k: nat, s: Stream, base: nat)
    requires k < |hw.records|
    ensures ApplyAll(hw, RecordWrites(k, s, base)) == hw.(records := hw.records[k := LiveRecord(s, base)])
  {
    var ws := RecordWrites(k, s, base);
    assert ws[..2][..1][..0] == [] && ws[..2][..1] == [ws[0]] && ws[..2] == [ws[0], ws[1]];
    var h1 := Apply(hw, ws[0]);
    assert ApplyAll(hw, ws[..2][..1]) == h1;
    assert ApplyAll(hw, ws[..2]) == Apply(h1, ws[1]);
  }

  // ------------------------------------------------------------------------------------------
  // State and commands
  // ------------------------------------------------------------------------------------------

  type Elem = Entry<Stream>

  datatype State = State(used: seq<bool>, claimed: seq<bool>, streams: map<nat, Elem>, hw: Hardware<Record>)

  type Command = StreamCommand<Stream>

  type Outcome = StepOutcome<State, Record>

  function LeaseOf(e: Elem): Lease {
    Lease(e.base, Channels(e.stream))
  }

  function Leases(streams: map<nat, Elem>): (m: map<nat, Lease>)
    ensures m.Keys == streams.Keys
  {
    map k | k in streams :: LeaseOf(streams[k])
  }

  function Refuse(s: State, e: Errno): Outcome {
    Outcome(s, Err(e), [])
  }

  function InstallWrites(pre: seq<Write<Record>>, k: nat, e: Elem): seq<Write<Record>> {
    pre + SetWrites<Record>(e.base, Channels(e.stream)) + RecordWrites(k, e.stream, e.base)
  }

  /** Store element `e` at index `k`, write its tracks and its record. */
  function Install(s: State, used: seq<bool>, claimed: seq<bool>, pre: seq<Write<Record>>, k: nat, e: Elem,
                   r: Result): Outcome
  {
    var ws := InstallWrites(pre, k, e);
    Outcome(State(used, claimed, s.streams[k := e], ApplyAll(s.hw, ws)), r, ws)
  }

  function AddStep(s: State, filp: Handle, stream: Stream): Outcome {
    if !ValidStream(stream, |s.claimed|) then Refuse(s, EINVAL) else
    var tracks := Channels(stream);
    match Check(s.claimed, tracks)
    case Some(e) => Refuse(s, e)
    case None =>
      match LeastFree(s.streams, 0, |s.hw.records|)
      case None => Refuse(s, EBUSY)
      case Some(k) =>
        match FirstFit(s.used, |tracks|)
        case None => Refuse(s, ENOSPC)
        case Some(b) =>
          Install(s, Marked(s.used, b, |tracks|, true), TracksMarked(s.claimed, tracks, true), [],
                  k, Elem(filp, stream, b), Ok(k))
  }

  /** Change of the number of channels: release the range, find a new one, roll back on failure. */
  function ResizeStep(s: State, k: nat, stream: Stream): Outcome
    requires k in s.streams
  {
    var e := s.streams[k];
    var old_, new_ := Channels(e.stream), Channels(stream);
    var used := Marked(s.used, e.base, |old_|, false);
    var unclaimed := TracksMarked(s.claimed, old_, false);
    var restored := TracksMarked(unclaimed, old_, true);
    var pre := FreeWrites<Record>(e.base, |old_|);
    match FirstFit(used, |new_|)
    case Some(b) =>
      Install(s, Marked(used, b, |new_|, true), TracksMarked(unclaimed, new_, true), pre,
              k, Elem(e.owner, stream, b), Ok(b))
    case None =>
      match FirstFit(used, |old_|)
      case Some(b) =>
        Install(s, Marked(used, b, |old_|, true), restored, pre, k, e.(base := b), Err(ENOSPC))
      case None =>
        Outcome(State(used, restored, s.streams, ApplyAll(s.hw, pre)), Err(ENOSPC), pre)
  }

  function UpdateStep(s: State, filp: Handle, k: nat, stream: Stream): Outcome {
    if !ValidStream(stream, |s.claimed|) then Refuse(s, EINVAL) else
    if k !in s.streams then Refuse(s, ENOENT) else
    var e := s.streams[k];
    if e.owner != filp then Refuse(s, EACCES) else
    var unclaimed := TracksMarked(s.claimed, Channels(e.stream), false);
    match Check(unclaimed, Channels(stream))
    case Some(err) =>
      Outcome(s.(claimed := TracksMarked(unclaimed, Channels(e.stream), true)), Err(err), [])
    case None =>
      if e.stream.numChannels != stream.numChannels then ResizeStep(s, k, stream)
      else Install(s, s.used, TracksMarked(unclaimed, Channels(stream), true), [],
                   k, Elem(e.owner, stream, e.base), Ok(0))
  }

  function FreeStreamWrites(s: State, k: nat): seq<Write<Record>>
    requires k in s.streams && k < |s.hw.records|
  {
    FreeWrites<Record>(s.streams[k].base, |Channels(s.streams[k].stream)|)
      + [RecordWrite(k, DeadRecord(s.hw.records[k]))]
  }

  function FreeStream(s: State, k: nat): Outcome
    requires k in s.streams && k < |s.hw.records|
  {
    var e := s.streams[k];
    var tracks := Channels(e.stream);
    var ws := FreeStreamWrites(s, k);
    Outcome(State(Marked(s.used, e.base, |tracks|, false), TracksMarked(s.claimed, tracks, false),
                  s.streams - {k}, ApplyAll(s.hw, ws)),
            Ok(0), ws)
  }

  function DeleteStep(s: State, filp: Handle, k: nat): Outcome {
    if k !in s.streams then Refuse(s, ENOENT)
    else if s.streams[k].owner != filp then Refuse(s, EACCES)
    else if k < |s.hw.records| then FreeStream(s, k)
    else Refuse(s, ENOENT)
  }

  /** Closing a handle frees a stream it owns and skips any other index. */
  function Visit(s: State, filp: Handle, k: nat): (o: Outcome)
    ensures |o.state.hw.records| == |s.hw.records| && |o.state.hw.cells| == |s.hw.cells|
  {
    if k in s.streams && s.streams[k].owner == filp && k < |s.hw.records| then FreeStream(s, k)
    else Outcome(s, Ok(0), [])
  }

  /** The indices from `k` on, in ascending order. */
  function CloseFrom(s: State, filp: Handle, k: nat): (o: Outcome)
    ensures |o.state.hw.records| == |s.hw.records| && |o.state.hw.cells| == |s.hw.cells|
    ensures o.result == Ok(0)
    decreases |s.hw.records| - k
  {
    if k >= |s.hw.records| then Outcome(s, Ok(0), []) else
    var v := Visit(s, filp, k);
    var r := CloseFrom(v.state, filp, k + 1);
    Outcome(r.state, Ok(0), v.writes + r.writes)
  }

  function Step(s: State, filp: Handle, cmd: Command): Outcome {
    match cmd
    case Add(stream) => AddStep(s, filp, stream)
    case Update(k, stream) => UpdateStep(s, filp, k, stream)
    case Delete(k) => DeleteStep(s, filp, k)
    case Close => CloseFrom(s, filp, 0)
  }

  function InitialState(maxEntries: nat, maxTracks: nat, maxStreams: nat): State {
    State(seq(maxEntries, _ => false), seq(maxTracks, _ => false), map[],
          Hardware(seq(maxEntries, _ => Mute), seq(maxStreams, _ => ZERO_RECORD)))
  }

  // ------------------------------------------------------------------------------------------
  // The invariant
  // ------------------------------------------------------------------------------------------

  function RecordOf(e: Elem): Record {
    LiveRecord(e.stream, e.base)
  }

  /** A record is valid exactly for live indices, and is then the record of the stored stream. */
  ghost predicate RecordsInv(s: State) {
    && (forall k | k in s.streams :: k < |s.hw.records|)
    && (forall k | 0 <= k < |s.hw.records| :: s.hw.records[k].valid <==> k in s.streams)
    && (forall k | k in s.streams :: s.hw.records[k] == LiveRecord(s.streams[k].stream, s.streams[k].base))
  }

  ghost predicate Inv(s: State) {
    && TableInv(s.used, s.hw.cells, Leases(s.streams))
    && ClaimsInv(s.claimed, Leases(s.streams))
    && RecordsInv(s)
    && (forall k | k in s.streams :: ValidStream(s.streams[k].stream, |s.claimed|))
  }

  type Consistent = s: State | Inv(s) ghost witness InitialState(0, 0, 0)

  lemma LeasesUpdate(streams: map<nat, Elem>, k: nat, e: Elem)
    ensures Leases(streams[k := e]) == Leases(streams)[k := Lease(e.base, Channels(e.stream))]
    ensures Leases(streams[k := e]) == (Leases(streams) - {k})[k := Lease(e.base, Channels(e.stream))]
    ensures Leases(streams - {k}) == Leases(streams) - {k}
  {
  }

  lemma InitialInv(maxEntries: nat, maxTracks: nat, maxStreams: nat)
    ensures Inv(InitialState(maxEntries, maxTracks, maxStreams))
  {
    assert Leases(InitialState(maxEntries, maxTracks, maxStreams).streams) == map[];
  }

  /** The effect of installing an element on the two tables. */
  lemma InstallEffect(hw: Hardware<Record>, pre: seq<Write<Record>>, k: nat, e: Elem)
    requires k < |hw.records|
    requires e.base + |Channels(e.stream)| <= |hw.cells|
    ensures var h := ApplyAll(hw, pre);
            ApplyAll(hw, InstallWrites(pre, k, e)) ==
            Hardware(CellsSet(h.cells, e.base, Channels(e.stream)), h.records[k := LiveRecord(e.stream, e.base)])
  {
    var set_, rec := SetWrites<Record>(e.base, Channels(e.stream)), RecordWrites(k, e.stream, e.base);
    ApplyAllConcat(hw, pre, set_);
    ApplyAllConcat(hw, pre + set_, rec);
    SetWritesEffect(ApplyAll(hw, pre), e.base, Channels(e.stream));
    RecordWritesEffect(ApplyAll(hw, pre + set_), k, e.stream, e.base);
  }

  lemma RecordsInstalled(s: State, s': State, k: nat, e: Elem)
    requires RecordsInv(s) && k < |s.hw.records|
    requires s'.streams == s.streams[k := e]
    requires s'.hw.records == s.hw.records[k := LiveRecord(e.stream, e.base)]
    ensures RecordsInv(s')
  {
  }

  lemma RecordsRemoved(s: State, s': State, k: nat)
    requires RecordsInv(s) && k in s.streams
    requires s'.streams == s.streams - {k}
    requires s'.hw.records == s.hw.records[k := DeadRecord(s.hw.records[k])]
    ensures RecordsInv(s')
  {
  }

  /** Installing re-establishes the invariant once table and claims are right. */
  lemma InstallKeeps(s: State, used: seq<bool>, claimed: seq<bool>, pre: seq<Write<Record>>, k: nat, e: Elem,
                     r: Result)
    requires RecordsInv(s) && k < |s.hw.records|
    requires forall i | i in s.streams :: ValidStream(s.streams[i].stream, |claimed|)
    requires ValidStream(e.stream, |claimed|)
    requires e.base + |Channels(e.stream)| <= |s.hw.cells|
    requires ApplyAll(s.hw, pre).records == s.hw.records
    requires TableInv(used, CellsSet(ApplyAll(s.hw, pre).cells, e.base, Channels(e.stream)), Leases(s.streams[k := e]))
    requires ClaimsInv(claimed, Leases(s.streams[k := e]))
    ensures Inv(Install(s, used, claimed, pre, k, e, r).state)
  {
    InstallEffect(s.hw, pre, k, e);
    RecordsInstalled(s, Install(s, used, claimed, pre, k, e, r).state, k, e);
  }

  lemma AddKeeps(s: Consistent, filp: Handle, stream: Stream)
    ensures Inv(AddStep(s, filp, stream).state)
  {
    var o := AddStep(s, filp, stream);
    if o.result.Ok? {
      var tracks := Channels(stream);
      var k := LeastFree(s.streams, 0, |s.hw.records|).value;
      var b := FirstFit(s.used, |tracks|).value;
      var e := Elem(filp, stream, b);
      CheckPasses(s.claimed, tracks);
      LeasesUpdate(s.streams, k, e);
      GrantKeeps(s.used, s.hw.cells, Leases(s.streams), k, b, tracks);
      ClaimKeeps(s.claimed, Leases(s.streams), k, Lease(b, tracks));
      var used, claimed := Marked(s.used, b, |tracks|, true), TracksMarked(s.claimed, tracks, true);
      assert o == Install(s, used, claimed, [], k, e, Ok(k));
      InstallKeeps(s, used, claimed, [], k, e, Ok(k));
    } else {
      assert o.state == s;
    }
  }

  /** A new claim set passes the check after the stream's own claims were dropped. */
  lemma SwapClaims(s: Consistent, k: nat, e: Elem)
    requires k in s.streams && ValidStream(e.stream, |s.claimed|)
    requires var unclaimed := TracksMarked(s.claimed, Channels(s.streams[k].stream), false);
             Check(unclaimed, Channels(e.stream)).None?
    ensures var unclaimed := TracksMarked(s.claimed, Channels(s.streams[k].stream), false);
            ClaimsInv(TracksMarked(unclaimed, Channels(e.stream), true), Leases(s.streams[k := e]))
  {
    var unclaimed := TracksMarked(s.claimed, Channels(s.streams[k].stream), false);
    CheckPasses(unclaimed, Channels(e.stream));
    UnclaimKeeps(s.claimed, Leases(s.streams), k);
    ClaimKeeps(unclaimed, Leases(s.streams) - {k}, k, Lease(e.base, Channels(e.stream)));
    LeasesUpdate(s.streams, k, e);
  }

  lemma RelocateKeeps(s: Consistent, k: nat, e: Elem, n: nat)
    requires k in s.streams
    requires var l := Leases(s.streams)[k];
             Fits(Marked(s.used, l.base, |l.tracks|, false), n, e.base) && n == |Channels(e.stream)|
    ensures var l := Leases(s.streams)[k];
            var used := Marked(s.used, l.base, |l.tracks|, false);
            var h := ApplyAll(s.hw, FreeWrites<Record>(l.base, |l.tracks|));
            && h == s.hw.(cells := CellsMuted(s.hw.cells, l.base, |l.tracks|))
            && TableInv(Marked(used, e.base, n, true), CellsSet(h.cells, e.base, Channels(e.stream)),
                        Leases(s.streams[k := e]))
  {
    var l := Leases(s.streams)[k];
    FreeWritesEffect(s.hw, l.base, |l.tracks|);
    ReleaseKeeps(s.used, s.hw.cells, Leases(s.streams), k);
    GrantKeeps(Marked(s.used, l.base, |l.tracks|, false), CellsMuted(s.hw.cells, l.base, |l.tracks|),
               Leases(s.streams) - {k}, k, e.base, Channels(e.stream));
    LeasesUpdate(s.streams, k, e);
  }

  lemma ResizeMoves(s: Consistent, k: nat, stream: Stream)
    requires k in s.streams && ValidStream(stream, |s.claimed|)
    requires var unclaimed := TracksMarked(s.claimed, Channels(s.streams[k].stream), false);
             Check(unclaimed, Channels(stream)).None?
    requires ResizeStep(s, k, stream).result.Ok?
    ensures Inv(ResizeStep(s, k, stream).state)
  {
    var e := s.streams[k];
    var old_, new_ := Channels(e.stream), Channels(stream);
    var used := Marked(s.used, e.base, |old_|, false);
    var unclaimed := TracksMarked(s.claimed, old_, false);
    var b := FirstFit(used, |new_|).value;
    var e' := Elem(e.owner, stream, b);
    RelocateKeeps(s, k, e', |new_|);
    SwapClaims(s, k, e');
    var used', claimed', pre := Marked(used, b, |new_|, true), TracksMarked(unclaimed, new_, true),
                                FreeWrites<Record>(e.base, |old_|);
    assert ResizeStep(s, k, stream) == Install(s, used', claimed', pre, k, e', Ok(b));
    InstallKeeps(s, used', claimed', pre, k, e', Ok(b));
  }

  lemma ResizeRollsBack(s: Consistent, k: nat, stream: Stream)
    requires k in s.streams
    requires ResizeStep(s, k, stream).result.Err?
    ensures Inv(ResizeStep(s, k, stream).state)
  {
    var e := s.streams[k];
    var tracks := Channels(e.stream);
    var m := Leases(s.streams);
    var used := Marked(s.used, e.base, |tracks|, false);
    ReclaimRestores(s.claimed, m, k);
    RollbackFits(s.used, s.hw.cells, m, k);
    var back := FirstFit(used, |tracks|);
    if back.Some? {
      var e' := e.(base := back.value);
      RelocateKeeps(s, k, e', |tracks|);
      RebaseKeeps(s.claimed, m, k, back.value);
      LeasesUpdate(s.streams, k, e');
      InstallKeeps(s, Marked(used, back.value, |tracks|, true), s.claimed, FreeWrites<Record>(e.base, |tracks|),
                   k, e', Err(ENOSPC));
    } else {
      ResizeStuck(s, k, stream);
    }
  }

  lemma StuckIsIdle(s: State, k: nat, stream: Stream)
    requires k in s.streams && Channels(s.streams[k].stream) == [] && s.streams[k].base <= |s.hw.cells|
    requires ResizeStep(s, k, stream).result.Err?
    requires FirstFit(Marked(s.used, s.streams[k].base, 0, false), 0).None?
    ensures ResizeStep(s, k, stream).state == s
  {
    var b := s.streams[k].base;
    FreeWritesEffect(s.hw, b, 0);
    assert CellsMuted(s.hw.cells, b, 0) == s.hw.cells;
    assert Marked(s.used, b, 0, false) == s.used;
    assert TracksMarked(TracksMarked(s.claimed, [], false), [], true) == s.claimed;
  }

  /** Only a stream without channels can fail to roll back, and then nothing has changed. */
  lemma ResizeStuck(s: Consistent, k: nat, stream: Stream)
    requires k in s.streams
    requires ResizeStep(s, k, stream).result.Err?
    requires var l := LeaseOf(s.streams[k]);
             FirstFit(Marked(s.used, l.base, |l.tracks|, false), |l.tracks|).None?
    ensures ResizeStep(s, k, stream).state == s
  {
    RollbackFits(s.used, s.hw.cells, Leases(s.streams), k);
    assert Leases(s.streams)[k].base <= |s.hw.cells|;
    StuckIsIdle(s, k, stream);
  }

  lemma ResizeKeeps(s: Consistent, k: nat, stream: Stream)
    requires k in s.streams && ValidStream(stream, |s.claimed|)
    requires var unclaimed := TracksMarked(s.claimed, Channels(s.streams[k].stream), false);
             Check(unclaimed, Channels(stream)).None?
    ensures Inv(ResizeStep(s, k, stream).state)
  {
    if ResizeStep(s, k, stream).result.Ok? {
      ResizeMoves(s, k, stream);
    } else {
      ResizeRollsBack(s, k, stream);
    }
  }

  lemma InPlaceKeeps(s: Consistent, k: nat, e: Elem)
    requires k in s.streams && ValidStream(e.stream, |s.claimed|)
    requires e.base == s.streams[k].base && e.stream.numChannels == s.streams[k].stream.numChannels
    requires var unclaimed := TracksMarked(s.claimed, Channels(s.streams[k].stream), false);
             Check(unclaimed, Channels(e.stream)).None?
    ensures var unclaimed := TracksMarked(s.claimed, Channels(s.streams[k].stream), false);
            Inv(Install(s, s.used, TracksMarked(unclaimed, Channels(e.stream), true), [], k, e, Ok(0)).state)
  {
    var unclaimed := TracksMarked(s.claimed, Channels(s.streams[k].stream), false);
    SwapClaims(s, k, e);
    RewriteKeeps(s.used, s.hw.cells, Leases(s.streams), k, Channels(e.stream));
    LeasesUpdate(s.streams, k, e);
    InstallKeeps(s, s.used, TracksMarked(unclaimed, Channels(e.stream), true), [], k, e, Ok(0));
  }

  lemma UpdateKeeps(s: Consistent, filp: Handle, k: nat, stream: Stream)
    ensures Inv(UpdateStep(s, filp, k, stream).state)
  {
    if ValidStream(stream, |s.claimed|) && k in s.streams && s.streams[k].owner == filp {
      var e := s.streams[k];
      var unclaimed := TracksMarked(s.claimed, Channels(e.stream), false);
      if Check(unclaimed, Channels(stream)).Some? {
        ReclaimRestores(s.claimed, Leases(s.streams), k);
      } else if e.stream.numChannels != stream.numChannels {
        ResizeKeeps(s, k, stream);
      } else {
        InPlaceKeeps(s, k, Elem(e.owner, stream, e.base));
      }
    }
  }

  lemma FreeStreamEffect(s: State, k: nat)
    requires k in s.streams && k < |s.hw.records|
    requires s.streams[k].base + |Channels(s.streams[k].stream)| <= |s.hw.cells|
    ensures var l := Leases(s.streams)[k];
            FreeStream(s, k).state.hw ==
            Hardware(CellsMuted(s.hw.cells, l.base, |l.tracks|), s.hw.records[k := DeadRecord(s.hw.records[k])])
  {
    var l := Leases(s.streams)[k];
    var free, del := FreeWrites<Record>(l.base, |l.tracks|), [RecordWrite(k, DeadRecord(s.hw.records[k]))];
    ApplyAllConcat(s.hw, free, del);
    FreeWritesEffect(s.hw, l.base, |l.tracks|);
    var h := ApplyAll(s.hw, free);
    assert ApplyAll(h, del[..0]) == h;
  }

  lemma FreeStreamKeeps(s: Consistent, k: nat)
    requires k in s.streams
    ensures Inv(FreeStream(s, k).state)
  {
    var m := Leases(s.streams);
    assert m[k].base + |m[k].tracks| <= |s.hw.cells|;
    FreeStreamEffect(s, k);
    ReleaseKeeps(s.used, s.hw.cells, m, k);
    UnclaimKeeps(s.claimed, m, k);
    LeasesUpdate(s.streams, k, s.streams[k]);
    RecordsRemoved(s, FreeStream(s, k).state, k);
  }

  lemma CloseUnfolds(s: State, filp: Handle, k: nat)
    requires k < |s.hw.records|
    ensures var v := Visit(s, filp, k);
            var r := CloseFrom(v.state, filp, k + 1);
            CloseFrom(s, filp, k) == Outcome(r.state, Ok(0), v.writes + r.writes)
  {
  }

  lemma VisitRemoves(s: State, filp: Handle, k: nat)
    requires k < |s.hw.records|
    ensures Visit(s, filp, k).state.streams ==
            if k in s.streams && s.streams[k].owner == filp then s.streams - {k} else s.streams
  {
  }

  /** Closing from `k` on removes exactly the closing handle's streams from there on. */
  lemma {:induction false} CloseFromRemoves(s: State, filp: Handle, k: nat, after: map<nat, Elem>)
    requires after == CloseFrom(s, filp, k).state.streams
    ensures after == Unclosed(s.streams, filp, k, |s.hw.records|)
    decreases |s.hw.records| - k
  {
    if k < |s.hw.records| {
      VisitRemoves(s, filp, k);
      CloseFromRemoves(Visit(s, filp, k).state, filp, k + 1, after);
      UnclosedNext(s.streams, filp, k, |s.hw.records|);
    } else {
      UnclosedEnd(s.streams, filp, k, |s.hw.records|);
    }
  }

  lemma VisitKeeps(s: Consistent, filp: Handle, k: nat)
    ensures Inv(Visit(s, filp, k).state)
  {
    if k in s.streams && s.streams[k].owner == filp {
      FreeStreamKeeps(s, k);
    }
  }

  lemma {:induction false} CloseFromKeeps(s: Consistent, filp: Handle, k: nat, s': State)
    requires s' == CloseFrom(s, filp, k).state
    ensures Inv(s')
    decreases |s.hw.records| - k
  {
    if k < |s.hw.records| {
      VisitKeeps(s, filp, k);
      CloseFromKeeps(Visit(s, filp, k).state, filp, k + 1, s');
    }
  }

  lemma DeleteKeeps(s: Consistent, filp: Handle, k: nat)
    ensures Inv(DeleteStep(s, filp, k).state)
  {
    if k in s.streams && s.streams[k].owner == filp {
      FreeStreamKeeps(s, k);
    }
  }

  /** Every command keeps the invariant, whatever its arguments and result. */
  lemma StepKeeps(s: Consistent, filp: Handle, cmd: Command)
    ensures Inv(Step(s, filp, cmd).state)
  {
    match cmd
    case Add(stream) => AddKeeps(s, filp, stream);
    case Update(k, stream) => UpdateKeeps(s, filp, k, stream);
    case Delete(k) => DeleteKeeps(s, filp, k);
    case Close => CloseFromKeeps(s, filp, 0, Step(s, filp, Close).state);
  }
}
