/**
 TX streams at value level: descriptions, packet length, the hardware record, and the commands.
 Unlike RX, several TX streams may send the same track, so there is no claim bitmap; but every
 record carries the length of the packets the hardware will build.
 */
module TxStreams {
  import opened TrackTable
  import opened StreamCommon
  import opened MachineWords
  import opened OctetStrings
  import opened Windows
  import opened Runs

  const MAX_PACKET: nat := 1460

  /** Addresses, ports and tags are in host order. */
  datatype Interface = Interface(destinationIp: nat, sourceIp: nat, destinationPort: nat, sourcePort: nat, vlanTag: nat)

  /** The six octets of a hardware address. */
  type Mac = m: seq<Byte> | |m| == 6 witness [0, 0, 0, 0, 0, 0]

  /** The track array of a description has this many entries. */
  type ChannelCount = n: nat | n <= MAX_CHANNELS

  type SampleCount = n: nat | n < 0x100

  datatype Stream = Stream(
    primary: Interface, secondary: Interface, primaryMac: Mac, secondaryMac: Mac,
    vlanTagged: bool, multicast: bool, usePrimary: bool, useSecondary: bool,
    codec: nat, payloadType: nat, nextTxTime: nat, ttl: nat, dscp: nat, numSamples: SampleCount,
    active: bool, nextSequence: nat, rtpOffset: nat, ssrc: nat,
    numChannels: ChannelCount, tracks: Tracks)

  // ------------------------------------------------------------------------------------------
  // Validation and packet length
  // ------------------------------------------------------------------------------------------

  predicate ValidInterface(i: Interface, vlan: bool) {
    && i.destinationIp != 0 && i.destinationPort != 0 && i.sourceIp != 0 && i.sourcePort != 0
    && !(vlan && i.vlanTag > 4095)
  }

  predicate ValidStream(s: Stream, maxTracks: nat) {
    && (s.usePrimary || s.useSecondary)
    && (s.usePrimary ==> ValidInterface(s.primary, s.vlanTagged))
    && (s.useSecondary ==> ValidInterface(s.secondary, s.vlanTagged))
    && s.dscp < 64
    && s.ssrc != 0
    && ValidPayloadType(s.payloadType, s.numChannels, s.codec)
    && s.codec < CODEC_MAX
    && InBounds(s.tracks, maxTracks)
  }

  /** The interfaces a stream sends on. */
  function UsedInterfaces(s: Stream): set<Interface> {
    (if s.usePrimary then {s.primary} else {}) + (if s.useSecondary then {s.secondary} else {})
  }

  /** A valid stream sends somewhere, with no zero address or port, VLAN tags of 12 bits, a DSCP that fits
      the upper six bits of its octet, a source, and tracks that exist. */
  lemma ValidExactly(s: Stream, maxTracks: nat)
    ensures ValidStream(s, maxTracks) <==>
            && UsedInterfaces(s) != {}
            && (forall i | i in UsedInterfaces(s) ::
                  && 0 !in {i.destinationIp, i.destinationPort, i.sourceIp, i.sourcePort}
                  && (s.vlanTagged ==> i.vlanTag / 0x1000 == 0))
            && s.dscp * 4 < 0x100 && s.ssrc > 0
            && AllowedPayloadType(s.payloadType, s.numChannels, s.codec)
            && s.codec in {AM824, L32, L24, L16}
            && (forall c | 0 <= c < MAX_CHANNELS :: s.tracks[c] < maxTracks)
  {
    PayloadTypes(s.payloadType, s.numChannels, s.codec);
    assert s.usePrimary ==> s.primary in UsedInterfaces(s);
    assert s.useSecondary ==> s.secondary in UsedInterfaces(s);
  }

  function SampleLength(codec: nat): nat {
    match codec
    case 0 => 8
    case 1 => 4
    case 2 => 3
    case _ => 2
  }

  /** IP, UDP and RTP headers and the samples of all channels. */
  function IpLength(s: Stream): nat {
    20 + 8 + 12 + s.numChannels * s.numSamples * SampleLength(s.codec)
  }

  predicate Acceptable(s: Stream, maxTracks: nat) {
    ValidStream(s, maxTracks) && IpLength(s) <= MAX_PACKET
  }

  function Channels(s: Stream): seq<int> {
    s.tracks[..s.numChannels]
  }

  // ------------------------------------------------------------------------------------------
  // The hardware stream record
  // ------------------------------------------------------------------------------------------

  datatype Details = Details(
    primary: Interface, secondary: Interface,
    primaryMacHi: nat, primaryMacLo: nat, secondaryMacHi: nat, secondaryMacLo: nat,
    vlan: bool, multicast: bool, usePrimary: bool, useSecondary: bool,
    codec: nat, payloadType: nat, nextTxTime: nat, ttl: nat, dscp: nat,
    nextSequence: nat, rtpOffset: nat, ssrc: nat, numSamples: nat, ipLength: nat)

  type Record = StreamRecord<Details>

  const ZERO_INTERFACE := Interface(0, 0, 0, 0, 0)

  const ZERO_RECORD: Record := StreamRecord(
    Details(ZERO_INTERFACE, ZERO_INTERFACE, 0, 0, 0, 0, false, false, false, false, 0, 0, 0, 0, 0, 0, 0, 0, 0, 0),
    0, 0, false, false)

  /** The first four and the last two octets, as the code packs them. */
  function MacHi(m: Mac): nat {
    (m[0] as int * 0x100 + m[1] as int) * 0x1_0000 + (m[2] as int * 0x100 + m[3] as int)
  }

  function MacLo(m: Mac): nat {
    m[4] as int * 0x100 + m[5] as int
  }

  /** The length is a 16-bit field.  The upper part of a hardware address is a 32-bit field for the
      primary interface and a 16-bit field for the secondary one. */
  function DetailsOf(s: Stream, ipLength: nat): Details {
    Details(s.primary, s.secondary,
            MacHi(s.primaryMac), MacLo(s.primaryMac), MacHi(s.secondaryMac) % 0x1_0000, MacLo(s.secondaryMac),
            s.vlanTagged, s.multicast, s.usePrimary, s.useSecondary,
            CodecCode(s.codec), s.payloadType, s.nextTxTime, s.ttl, s.dscp, s.nextSequence, s.rtpOffset, s.ssrc,
            s.numSamples, ipLength % 0x1_0000)
  }

  /** The octets in the two fields of the primary interface, four and two, are the address. */
  lemma PrimaryMacReadsBack(s: Stream, ipLength: nat)
    ensures var d := DetailsOf(s, ipLength); Octets(d.primaryMacHi, 4) + Octets(d.primaryMacLo, 2) == s.primaryMac
  {
    var m := s.primaryMac;
    FourOctets(m[0], m[1], m[2], m[3]);
    TwoOctets(m[4], m[5]);
    assert [m[0], m[1], m[2], m[3]] + [m[4], m[5]] == m;
  }

  /** The octets in the two fields of the secondary interface, two and four, are the address exactly if
      its first four octets are zero: the first two are lost, and the next two are in their place. */
  lemma SecondaryMacReadsBack(s: Stream, ipLength: nat)
    ensures var d, m := DetailsOf(s, ipLength), s.secondaryMac;
            Octets(d.secondaryMacHi, 2) + Octets(d.secondaryMacLo, 4) == m <==>
            m[0] == 0 && m[1] == 0 && m[2] == 0 && m[3] == 0
  {
    SecondaryFields(s.secondaryMac);
    SameOctets(s.secondaryMac);
  }

  lemma SecondaryFields(m: Mac)
    ensures Octets(MacHi(m) % 0x1_0000, 2) + Octets(MacLo(m), 4) == [m[2], m[3], 0, 0, m[4], m[5]]
  {
    MiddleOctets(m);
    LastOctets(m);
  }

  lemma MiddleOctets(m: Mac)
    ensures Octets(MacHi(m) % 0x1_0000, 2) == [m[2], m[3]]
  {
    LowerHalf(m[0] as int * 0x100 + m[1] as int, m[2] as int * 0x100 + m[3] as int);
    TwoOctets(m[2], m[3]);
  }

  lemma LastOctets(m: Mac)
    ensures Octets(MacLo(m), 4) == [0, 0, m[4], m[5]]
  {
    FourOctets(0, 0, m[4], m[5]);
  }

  lemma SameOctets(m: Mac)
    ensures [m[2], m[3], 0, 0, m[4], m[5]] == m <==> m[0] == 0 && m[1] == 0 && m[2] == 0 && m[3] == 0
  {
    var shown: seq<Byte> := [m[2], m[3], 0, 0, m[4], m[5]];
    if shown == m {
      assert shown[0] == m[0] && shown[1] == m[1] && shown[2] == m[2] && shown[3] == m[3];
    }
  }

  lemma LowerHalf(first: nat, second: nat)
    requires second < 0x1_0000
    ensures (first * 0x1_0000 + second) % 0x1_0000 == second
  {
  }

  /** The record of a stream leased at `base`, before it is made valid. */
  function Fill(s: Stream, base: nat, ipLength: nat): Record {
    StreamRecord(DetailsOf(s, ipLength), s.numChannels % 0x100, base % 0x1_0000, false, s.active)
  }

  function LiveRecord(s: Stream, base: nat, ipLength: nat): Record {
    StreamRecord(DetailsOf(s, ipLength), s.numChannels % 0x100, base % 0x1_0000, true, s.active)
  }

  /** Read back from its record, a valid stream is as described, and the codec is the only one with
      that code. */
  lemma RecordReadsBack(s: Stream, maxTracks: nat, base: nat, ipLength: nat)
    requires ValidStream(s, maxTracks)
    ensures var r := LiveRecord(s, base, ipLength);
            var d := r.details;
            && r.valid && r.active == s.active
            && r.numChannels == s.numChannels % 0x100 && r.base == base % 0x1_0000 && d.ipLength == ipLength % 0x1_0000
            && (d.usePrimary || d.useSecondary)
            && d.usePrimary == s.usePrimary && d.useSecondary == s.useSecondary && d.vlan == s.vlanTagged
            && (d.usePrimary ==> d.primary == s.primary && ValidInterface(d.primary, d.vlan))
            && (d.useSecondary ==> d.secondary == s.secondary && ValidInterface(d.secondary, d.vlan))
            && (forall c: nat | c < CODEC_MAX :: CodecCode(c) == d.codec <==> c == s.codec)
            && d.multicast == s.multicast && d.payloadType == s.payloadType && d.nextTxTime == s.nextTxTime
            && d.numSamples == s.numSamples && d.ttl == s.ttl && d.dscp == s.dscp && d.nextSequence == s.nextSequence
            && d.rtpOffset == s.rtpOffset && d.ssrc == s.ssrc && d.ssrc != 0
  {
    forall c: nat | c < CODEC_MAX
      ensures CodecCode(c) == LiveRecord(s, base, ipLength).details.codec <==> c == s.codec
    {
      CodecsDiffer(c, s.codec);
    }
  }

  /** A new record is first written invalid; an update replaces a valid record in one write. */
  function RecordWrites(k: nat, s: Stream, base: nat, ipLength: nat, invalidate: bool): seq<Write<Record>> {
    if invalidate then [RecordWrite(k, Fill(s, base, ipLength)), RecordWrite(k, LiveRecord(s, base, ipLength))]
    else [RecordWrite(k, LiveRecord(s, base, ipLength))]
  }

  lemma RecordWritesEffect(hw: Hardware<Record>, k: nat, s: Stream, base: nat, ipLength: nat, invalidate: bool)
    requires k < |hw.records|
    ensures ApplyAll(hw, RecordWrites(k, s, base, ipLength, invalidate)) ==
            hw.(records := hw.records[k := LiveRecord(s, base, ipLength)])
  {
    var ws := RecordWrites(k, s, base, ipLength, invalidate);
    assert ws[..1][..0] == [] && ws[..1] == [ws[0]];
    assert ApplyAll(hw, ws[..1]) == Apply(hw, ws[0]);
    assert ws[..|ws|] == ws;
  }

  // ------------------------------------------------------------------------------------------
  // State and commands
  // ------------------------------------------------------------------------------------------

  type Elem = Entry<Stream>

  /** `maxTracks` is a property of the device. */
  datatype State = State(maxTracks: nat, used: seq<bool>, streams: map<nat, Elem>, hw: Hardware<Record>)

  type Command = StreamCommand<Stream>

  type Outcome = StepOutcome<State, Record>

  function LeaseOf(e: Elem): Lease {
    Lease(e.base, Channels(e.stream))
  }

  function Leases(streams: map<nat, Elem>): (m: map<nat, Lease>)
    ensures m.Keys == streams.Keys
  {
    map k | k in streams :: LeaseOf(streams[k])
  }

  function Refuse(s: State, e: Errno): Outcome {
    Outcome(s, Err(e), [])
  }

  function InstallWrites(pre: seq<Write<Record>>, k: nat, e: Elem, invalidate: bool): seq<Write<Record>> {
    pre + SetWrites<Record>(e.base, Channels(e.stream))
      + RecordWrites(k, e.stream, e.base, IpLength(e.stream), invalidate)
  }

  function Install(s: State, used: seq<bool>, pre: seq<Write<Record>>, k: nat, e: Elem, invalidate: bool,
                   r: Result): Outcome
  {
    var ws := InstallWrites(pre, k, e, invalidate);
    Outcome(State(s.maxTracks, used, s.streams[k := e], ApplyAll(s.hw, ws)), r, ws)
  }

  function AddStep(s: State, filp: Handle, stream: Stream): Outcome {
    if !Acceptable(stream, s.maxTracks) then Refuse(s, EINVAL) else
    match LeastFree(s.streams, 0, |s.hw.records|)
    case None => Refuse(s, EBUSY)
    case Some(k) =>
      match FirstFit(s.used, stream.numChannels)
      case None => Refuse(s, ENOSPC)
      case Some(b) =>
        Install(s, Marked(s.used, b, stream.numChannels, true), [], k, Elem(filp, stream, b), true, Ok(k))
  }

  function ResizeStep(s: State, k: nat, stream: Stream): Outcome
    requires k in s.streams
  {
    var e := s.streams[k];
    var n := e.stream.numChannels;
    var used := Marked(s.used, e.base, n, false);
    var pre := FreeWrites<Record>(e.base, n);
    match FirstFit(used, stream.numChannels)
    case Some(b) =>
      Install(s, Marked(used, b, stream.numChannels, true), pre, k, Elem(e.owner, stream, b), false, Ok(b))
    case None =>
      match FirstFit(used, n)
      case Some(b) => Install(s, Marked(used, b, n, true), pre, k, e.(base := b), false, Err(ENOSPC))
      case None => Outcome(State(s.maxTracks, used, s.streams, ApplyAll(s.hw, pre)), Err(ENOSPC), pre)
  }

  function UpdateStep(s: State, filp: Handle, k: nat, stream: Stream): Outcome {
    if !Acceptable(stream, s.maxTracks) then Refuse(s, EINVAL) else
    if k !in s.streams then Refuse(s, ENOENT) else
    var e := s.streams[k];
    if e.owner != filp then Refuse(s, EACCES) else
    if e.stream.numChannels != stream.numChannels then ResizeStep(s, k, stream)
    else Install(s, s.used, [], k, Elem(e.owner, stream, e.base), false, Ok(0))
  }

  function FreeStreamWrites(s: State, k: nat): seq<Write<Record>>
    requires k in s.streams
  {
    FreeWrites<Record>(s.streams[k].base, s.streams[k].stream.numChannels) + [RecordWrite(k, ZERO_RECORD)]
  }

  function FreeStream(s: State, k: nat): Outcome
    requires k in s.streams
  {
    var e := s.streams[k];
    var ws := FreeStreamWrites(s, k);
    Outcome(State(s.maxTracks, Marked(s.used, e.base, e.stream.numChannels, false), s.streams - {k},
                  ApplyAll(s.hw, ws)),
            Ok(0), ws)
  }

  function DeleteStep(s: State, filp: Handle, k: nat): Outcome {
    if k !in s.streams then Refuse(s, ENOENT)
    else if s.streams[k].owner != filp then Refuse(s, EACCES)
    else FreeStream(s, k)
  }

  /** Closing a handle frees a stream it owns and skips any other index. */
  function Visit(s: State, filp: Handle, k: nat): (o: Outcome)
    ensures |o.state.hw.records| == |s.hw.records| && |o.state.hw.cells| == |s.hw.cells|
  {
    if k in s.streams && s.streams[k].owner == filp then FreeStream(s, k) else Outcome(s, Ok(0), [])
  }

  /** The indices from `k` on, in ascending order. */
  function CloseFrom(s: State, filp: Handle, k: nat): (o: Outcome)
    ensures |o.state.hw.records| == |s.hw.records| && |o.state.hw.cells| == |s.hw.cells|
    ensures o.result == Ok(0)
    decreases |s.hw.records| - k
  {
    if k >= |s.hw.records| then Outcome(s, Ok(0), []) else
    var v := Visit(s, filp, k);
    var r := CloseFrom(v.state, filp, k + 1);
    Outcome(r.state, Ok(0), v.writes + r.writes)
  }

  function Step(s: State, filp: Handle, cmd: Command): Outcome {
    match cmd
    case Add(stream) => AddStep(s, filp, stream)
    case Update(k, stream) => UpdateStep(s, filp, k, stream)
    case Delete(k) => DeleteStep(s, filp, k)
    case Close => CloseFrom(s, filp, 0)
  }

  function InitialState(maxEntries: nat, maxTracks: nat, maxStreams: nat): State {
    State(maxTracks, seq(maxEntries, _ => false), map[],
          Hardware(seq(maxEntries, _ => Mute), seq(maxStreams, _ => ZERO_RECORD)))
  }

  // ------------------------------------------------------------------------------------------
  // The invariant
  // ------------------------------------------------------------------------------------------

  /** A record is valid exactly for live indices, and is then the record of the stored stream with
      its packet length. */
  ghost predicate RecordsInv(s: State) {
    && (forall k | k in s.streams :: k < |s.hw.records|)
    && (forall k | 0 <= k < |s.hw.records| :: s.hw.records[k].valid <==> k in s.streams)
    && (forall k | k in s.streams :: s.hw.records[k] == RecordOf(s.streams[k]))
  }

  function RecordOf(e: Elem): Record {
    LiveRecord(e.stream, e.base, IpLength(e.stream))
  }

  ghost predicate Inv(s: State) {
    && TableInv(s.used, s.hw.cells, Leases(s.streams))
    && RecordsInv(s)
    && (forall k | k in s.streams :: Acceptable(s.streams[k].stream, s.maxTracks))
  }

  type Consistent = s: State | Inv(s) ghost witness InitialState(0, 0, 0)

  lemma LeasesUpdate(streams: map<nat, Elem>, k: nat, e: Elem)
    ensures Leases(streams[k := e]) == Leases(streams)[k := Lease(e.base, Channels(e.stream))]
    ensures Leases(streams[k := e]) == (Leases(streams) - {k})[k := Lease(e.base, Channels(e.stream))]
    ensures Leases(streams - {k}) == Leases(streams) - {k}
  {
  }

  lemma InitialInv(maxEntries: nat, maxTracks: nat, maxStreams: nat)
    ensures Inv(InitialState(maxEntries, maxTracks, maxStreams))
  {
    assert Leases(InitialState(maxEntries, maxTracks, maxStreams).streams) == map[];
  }

  lemma InstallEffect(hw: Hardware<Record>, pre: seq<Write<Record>>, k: nat, e: Elem, invalidate: bool)
    requires k < |hw.records|
    requires e.base + |Channels(e.stream)| <= |hw.cells|
    ensures var h := ApplyAll(hw, pre);
            ApplyAll(hw, InstallWrites(pre, k, e, invalidate)) ==
            Hardware(CellsSet(h.cells, e.base, Channels(e.stream)), h.records[k := RecordOf(e)])
  {
    var set_ := SetWrites<Record>(e.base, Channels(e.stream));
    var rec := RecordWrites(k, e.stream, e.base, IpLength(e.stream), invalidate);
    ApplyAllConcat(hw, pre, set_);
    ApplyAllConcat(hw, pre + set_, rec);
    SetWritesEffect(ApplyAll(hw, pre), e.base, Channels(e.stream));
    RecordWritesEffect(ApplyAll(hw, pre + set_), k, e.stream, e.base, IpLength(e.stream), invalidate);
  }

  lemma RecordsInstalled(s: State, s': State, k: nat, e: Elem)
    requires RecordsInv(s) && k < |s.hw.records|
    requires s'.streams == s.streams[k := e]
    requires s'.hw.records == s.hw.records[k := RecordOf(e)]
    ensures RecordsInv(s')
  {
  }

  lemma RecordsRemoved(s: State, s': State, k: nat)
    requires RecordsInv(s) && k in s.streams
    requires s'.streams == s.streams - {k}
    requires s'.hw.records == s.hw.records[k := ZERO_RECORD]
    ensures RecordsInv(s')
  {
  }

  /** Installing re-establishes the invariant once the table is right. */
  lemma InstallKeeps(s: State, used: seq<bool>, pre: seq<Write<Record>>, k: nat, e: Elem, invalidate: bool, r: Result)
    requires RecordsInv(s) && k < |s.hw.records|
    requires forall i | i in s.streams :: Acceptable(s.streams[i].stream, s.maxTracks)
    requires Acceptable(e.stream, s.maxTracks)
    requires e.base + |Channels(e.stream)| <= |s.hw.cells|
    requires ApplyAll(s.hw, pre).records == s.hw.records
    requires TableInv(used, CellsSet(ApplyAll(s.hw, pre).cells, e.base, Channels(e.stream)), Leases(s.streams[k := e]))
    ensures Inv(Install(s, used, pre, k, e, invalidate, r).state)
  {
    InstallEffect(s.hw, pre, k, e, invalidate);
    RecordsInstalled(s, Install(s, used, pre, k, e, invalidate, r).state, k, e);
  }

  lemma AddKeeps(s: Consistent, filp: Handle, stream: Stream)
    ensures Inv(AddStep(s, filp, stream).state)
  {
    var o := AddStep(s, filp, stream);
    if o.result.Ok? {
      var tracks := Channels(stream);
      var k := LeastFree(s.streams, 0, |s.hw.records|).value;
      var b := FirstFit(s.used, |tracks|).value;
      var e := Elem(filp, stream, b);
      var used := Marked(s.used, b, |tracks|, true);
      LeasesUpdate(s.streams, k, e);
      GrantKeeps(s.used, s.hw.cells, Leases(s.streams), k, b, tracks);
      assert o == Install(s, used, [], k, e, true, Ok(k));
      InstallKeeps(s, used, [], k, e, true, Ok(k));
    } else {
      assert o.state == s;
    }
  }

  lemma RelocateKeeps(s: Consistent, k: nat, e: Elem, n: nat)
    requires k in s.streams
    requires var l := Leases(s.streams)[k];
             Fits(Marked(s.used, l.base, |l.tracks|, false), n, e.base) && n == |Channels(e.stream)|
    ensures var l := Leases(s.streams)[k];
            var used := Marked(s.used, l.base, |l.tracks|, false);
            var h := ApplyAll(s.hw, FreeWrites<Record>(l.base, |l.tracks|));
            && h == s.hw.(cells := CellsMuted(s.hw.cells, l.base, |l.tracks|))
            && TableInv(Marked(used, e.base, n, true), CellsSet(h.cells, e.base, Channels(e.stream)),
                        Leases(s.streams[k := e]))
  {
    var l := Leases(s.streams)[k];
    FreeWritesEffect(s.hw, l.base, |l.tracks|);
    ReleaseKeeps(s.used, s.hw.cells, Leases(s.streams), k);
    GrantKeeps(Marked(s.used, l.base, |l.tracks|, false), CellsMuted(s.hw.cells, l.base, |l.tracks|),
               Leases(s.streams) - {k}, k, e.base, Channels(e.stream));
    LeasesUpdate(s.streams, k, e);
  }

  /** Only a stream without channels can fail to roll back, and then nothing has changed. */
  lemma ResizeStuck(s: Consistent, k: nat, stream: Stream)
    requires k in s.streams
    requires ResizeStep(s, k, stream).result.Err?
    requires var l := Leases(s.streams)[k];
             FirstFit(Marked(s.used, l.base, |l.tracks|, false), |l.tracks|).None?
    ensures ResizeStep(s, k, stream).state == s
  {
    var l := Leases(s.streams)[k];
    RollbackFits(s.used, s.hw.cells, Leases(s.streams), k);
    FreeWritesEffect(s.hw, l.base, 0);
    assert CellsMuted(s.hw.cells, l.base, 0) == s.hw.cells;
    assert Marked(s.used, l.base, 0, false) == s.used;
  }

  lemma ResizeKeeps(s: Consistent, k: nat, stream: Stream)
    requires k in s.streams && Acceptable(stream, s.maxTracks)
    ensures Inv(ResizeStep(s, k, stream).state)
  {
    var e := s.streams[k];
    var n := e.stream.numChannels;
    var used := Marked(s.used, e.base, n, false);
    var pre := FreeWrites<Record>(e.base, n);
    var fit, back := FirstFit(used, stream.numChannels), FirstFit(used, n);
    if fit.Some? {
      var e' := Elem(e.owner, stream, fit.value);
      ResizeInstalls(s, k, e', Ok(fit.value));
      assert ResizeStep(s, k, stream) ==
             Install(s, Marked(used, fit.value, stream.numChannels, true), pre, k, e', false, Ok(fit.value));
    } else if back.Some? {
      var e' := e.(base := back.value);
      ResizeInstalls(s, k, e', Err(ENOSPC));
      assert ResizeStep(s, k, stream) ==
             Install(s, Marked(used, back.value, n, true), pre, k, e', false, Err(ENOSPC));
    } else {
      ResizeStuck(s, k, stream);
    }
  }

  lemma ResizeInstalls(s: Consistent, k: nat, e: Elem, r: Result)
    requires k in s.streams && Acceptable(e.stream, s.maxTracks)
    requires var o := s.streams[k];
             Fits(Marked(s.used, o.base, o.stream.numChannels, false), e.stream.numChannels, e.base)
    ensures var o := s.streams[k];
            var used := Marked(s.used, o.base, o.stream.numChannels, false);
            var pre := FreeWrites<Record>(o.base, o.stream.numChannels);
            Inv(Install(s, Marked(used, e.base, e.stream.numChannels, true), pre, k, e, false, r).state)
  {
    var o := s.streams[k];
    var used := Marked(s.used, o.base, o.stream.numChannels, false);
    RelocateKeeps(s, k, e, e.stream.numChannels);
    InstallKeeps(s, Marked(used, e.base, e.stream.numChannels, true),
                 FreeWrites<Record>(o.base, o.stream.numChannels), k, e, false, r);
  }

  lemma InPlaceKeeps(s: Consistent, k: nat, e: Elem)
    requires k in s.streams && Acceptable(e.stream, s.maxTracks)
    requires e.base == s.streams[k].base && e.stream.numChannels == s.streams[k].stream.numChannels
    ensures Inv(Install(s, s.used, [], k, e, false, Ok(0)).state)
  {
    RewriteKeeps(s.used, s.hw.cells, Leases(s.streams), k, Channels(e.stream));
    LeasesUpdate(s.streams, k, e);
    assert Leases(s.streams)[k].base + |Channels(e.stream)| <= |s.used|;
    InstallKeeps(s, s.used, [], k, e, false, Ok(0));
  }

  lemma UpdateKeeps(s: Consistent, filp: Handle, k: nat, stream: Stream)
    ensures Inv(UpdateStep(s, filp, k, stream).state)
  {
    if Acceptable(stream, s.maxTracks) && k in s.streams && s.streams[k].owner == filp {
      var e := s.streams[k];
      if e.stream.numChannels != stream.numChannels {
        ResizeKeeps(s, k, stream);
      } else {
        InPlaceKeeps(s, k, Elem(e.owner, stream, e.base));
      }
    }
  }

  lemma FreeStreamEffect(s: State, k: nat)
    requires k in s.streams && k < |s.hw.records|
    requires s.streams[k].base + s.streams[k].stream.numChannels <= |s.hw.cells|
    ensures var e := s.streams[k];
            FreeStream(s, k).state.hw ==
            Hardware(CellsMuted(s.hw.cells, e.base, e.stream.numChannels), s.hw.records[k := ZERO_RECORD])
  {
    var e := s.streams[k];
    var free, del := FreeWrites<Record>(e.base, e.stream.numChannels), [RecordWrite(k, ZERO_RECORD)];
    ApplyAllConcat(s.hw, free, del);
    FreeWritesEffect(s.hw, e.base, e.stream.numChannels);
    var h := ApplyAll(s.hw, free);
    assert ApplyAll(h, del[..0]) == h;
  }

  lemma FreeStreamKeeps(s: Consistent, k: nat)
    requires k in s.streams
    ensures Inv(FreeStream(s, k).state)
  {
    var m := Leases(s.streams);
    assert m[k].base + |m[k].tracks| <= |s.hw.cells|;
    FreeStreamEffect(s, k);
    ReleaseKeeps(s.used, s.hw.cells, m, k);
    LeasesUpdate(s.streams, k, s.streams[k]);
    RecordsRemoved(s, FreeStream(s, k).state, k);
  }

  lemma CloseUnfolds(s: State, filp: Handle, k: nat)
    requires k < |s.hw.records|
    ensures var v := Visit(s, filp, k);
            var r := CloseFrom(v.state, filp, k + 1);
            CloseFrom(s, filp, k) == Outcome(r.state, Ok(0), v.writes + r.writes)
  {
  }

  lemma VisitRemoves(s: State, filp: Handle, k: nat)
    requires k < |s.hw.records|
    ensures Visit(s, filp, k).state.streams ==
            if k in s.streams && s.streams[k].owner == filp then s.streams - {k} else s.streams
  {
  }

  /** Closing from `k` on removes exactly the closing handle's streams from there on. */
  lemma {:induction false} CloseFromRemoves(s: State, filp: Handle, k: nat, after: map<nat, Elem>)
    requires after == CloseFrom(s, filp, k).state.streams
    ensures after == Unclosed(s.streams, filp, k, |s.hw.records|)
    decreases |s.hw.records| - k
  {
    if k < |s.hw.records| {
      VisitRemoves(s, filp, k);
      CloseFromRemoves(Visit(s, filp, k).state, filp, k + 1, after);
      UnclosedNext(s.streams, filp, k, |s.hw.records|);
    } else {
      UnclosedEnd(s.streams, filp, k, |s.hw.records|);
    }
  }

  lemma VisitKeeps(s: Consistent, filp: Handle, k: nat)
    ensures Inv(Visit(s, filp, k).state)
  {
    if k in s.streams && s.streams[k].owner == filp {
      FreeStreamKeeps(s, k);
    }
  }

  lemma {:induction false} CloseFromKeeps(s: Consistent, filp: Handle, k: nat, s': State)
    requires s' == CloseFrom(s, filp, k).state
    ensures Inv(s')
    decreases |s.hw.records| - k
  {
    if k < |s.hw.records| {
      VisitKeeps(s, filp, k);
      CloseFromKeeps(Visit(s, filp, k).state, filp, k + 1, s');
    }
  }

  lemma DeleteKeeps(s: Consistent, filp: Handle, k: nat)
    ensures Inv(DeleteStep(s, filp, k).state)
  {
    if k in s.streams && s.streams[k].owner == filp {
      FreeStreamKeeps(s, k);
    }
  }

  /** Every command keeps the invariant, whatever its arguments and result. */
  lemma StepKeeps(s: Consistent, filp: Handle, cmd: Command)
    ensures Inv(Step(s, filp, cmd).state)
  {
    match cmd
    case Add(stream) => AddKeeps(s, filp, stream);
    case Update(k, stream) => UpdateKeeps(s, filp, k, stream);
    case Delete(k) => DeleteKeeps(s, filp, k);
    case Close => CloseFromKeeps(s, filp, 0, Step(s, filp, Close).state);
  }
}
