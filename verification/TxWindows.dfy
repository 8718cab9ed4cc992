/**
 TX streams at every single hardware write.

 Several TX streams may send the same track, so there is nothing to isolate.  But while a command
 changes words and records one by one, a valid record must show only tracks of its own stream, it must
 be the complete record of that stream, and the other streams must not be disturbed.
 */
module TxWindows {
  import opened TrackTable
  import opened StreamCommon
  import opened Windows
  import opened TxStreams

  // ------------------------------------------------------------------------------------------
  // What a command does
  // ------------------------------------------------------------------------------------------

  /** The outcome `o` of a command in state `s` is the change `c`. */
  ghost predicate Does(s: State, o: Outcome, c: Change<Stream, Record>) {
    match c
    case Idle => o.writes == [] && o.state.streams == s.streams
    case Put(k, e, pre) =>
      && k < |s.hw.records| && Places(s.used, Leases(s.streams), k, LeaseOf(e), pre)
      && o.writes == InstallWrites(pre, k, e, k !in s.streams) && o.state.streams == s.streams[k := e]
    case Drop(k) =>
      && k in s.streams && k < |s.hw.records|
      && o.writes == FreeStreamWrites(s, k) && o.state.streams == s.streams - {k}
  }

  lemma AddDoes(s: State, filp: Handle, stream: Stream) returns (c: Change<Stream, Record>)
    ensures Does(s, AddStep(s, filp, stream), c)
    ensures !c.Drop? && (c.Put? ==> c.index !in s.streams)
  {
    if AddStep(s, filp, stream).result.Ok? {
      var k := LeastFree(s.streams, 0, |s.hw.records|).value;
      c := Put(k, Elem(filp, stream, FirstFit(s.used, |Channels(stream)|).value), []);
    } else {
      c := Idle;
    }
  }

  /** Rolling back fails only for a stream without channels. */
  predicate RollsBack(s: State, k: nat)
    requires k in s.streams
  {
    var n := |Channels(s.streams[k].stream)|;
    n > 0 ==> FirstFit(Marked(s.used, s.streams[k].base, n, false), n).Some?
  }

  lemma ResizeDoes(s: State, k: nat, stream: Stream) returns (c: Change<Stream, Record>)
    requires k in s.streams && k < |s.hw.records| && RollsBack(s, k)
    ensures Does(s, ResizeStep(s, k, stream), c) && !c.Drop? && (c.Put? ==> c.index == k)
  {
    var e := s.streams[k];
    var n := |Channels(e.stream)|;
    var used := Marked(s.used, e.base, n, false);
    var pre := FreeWrites<Record>(e.base, n);
    var fit, back := FirstFit(used, |Channels(stream)|), FirstFit(used, n);
    if fit.Some? {
      c := Put(k, Elem(e.owner, stream, fit.value), pre);
    } else if back.Some? {
      c := Put(k, e.(base := back.value), pre);
    } else {
      c := Idle;
    }
  }

  lemma UpdateDoes(s: State, filp: Handle, k: nat, stream: Stream) returns (c: Change<Stream, Record>)
    requires k in s.streams ==> k < |s.hw.records| && RollsBack(s, k)
    ensures Does(s, UpdateStep(s, filp, k, stream), c) && !c.Drop? && (c.Put? ==> c.index == k)
  {
    if Acceptable(stream, s.maxTracks) && k in s.streams && s.streams[k].owner == filp {
      if s.streams[k].stream.numChannels != stream.numChannels {
        c := ResizeDoes(s, k, stream);
      } else {
        c := Put(k, s.streams[k].(stream := stream), []);
      }
    } else {
      c := Idle;
    }
  }

  lemma CanRollBack(s: Consistent, k: nat)
    requires k in s.streams
    ensures RollsBack(s, k)
  {
    RollbackFits(s.used, s.hw.cells, Leases(s.streams), k);
  }

  lemma DeleteDoes(s: State, filp: Handle, k: nat) returns (c: Change<Stream, Record>)
    requires k in s.streams ==> k < |s.hw.records|
    ensures Does(s, DeleteStep(s, filp, k), c) && !c.Put? && (c.Drop? ==> c.index == k)
  {
    c := if DeleteStep(s, filp, k).result.Ok? then Drop(k) else Idle;
  }

  lemma VisitDoes(s: State, filp: Handle, k: nat) returns (c: Change<Stream, Record>)
    requires k in s.streams ==> k < |s.hw.records|
    ensures Does(s, Visit(s, filp, k), c) && !c.Put? && (c.Drop? ==> c.index == k && s.streams[k].owner == filp)
  {
    c := if k in s.streams && s.streams[k].owner == filp then Drop(k) else Idle;
  }

  /** What each command but the closing of a handle does: it changes at most one index, and none of a
      bystander. */
  lemma CommandDoes(s: Consistent, filp: Handle, cmd: Command) returns (c: Change<Stream, Record>)
    requires !cmd.Close?
    ensures Does(s, Step(s, filp, cmd), c)
    ensures forall l | Changes(c, l) :: !Bystander(s.streams, filp, cmd, l)
  {
    match cmd
    case Add(stream) => c := AddDoes(s, filp, stream);
    case Update(k, stream) =>
      if k in s.streams { CanRollBack(s, k); }
      c := UpdateDoes(s, filp, k, stream);
    case Delete(k) => c := DeleteDoes(s, filp, k);
  }

  // ------------------------------------------------------------------------------------------
  // Every record shows only its own stream's tracks
  // ------------------------------------------------------------------------------------------

  lemma RecordsPoint(s: Consistent)
    ensures PointTo(s.hw.records, Leases(s.streams))
  {
  }

  /** Between commands every valid record shows only its own stream's tracks. */
  lemma InvGuards(s: Consistent, own: map<nat, Lease>)
    requires AllReadable(Leases(s.streams)) && Owns(own, Leases(s.streams))
    ensures Guarded(s.hw, own) && Framed(s.hw.records, Leases(s.streams))
  {
    RecordsPoint(s);
    ReadableIsFramed(s.hw.records, Leases(s.streams));
    LeasedIsGuarded(s.used, s.hw, Leases(s.streams), own);
  }

  lemma IdleGuards(s: Consistent, own: map<nat, Lease>)
    requires AllReadable(Leases(s.streams)) && Owns(own, Leases(s.streams))
    ensures GuardedAlong(s.hw, [], own)
  {
    InvGuards(s, own);
  }

  /** The writes of record `k` for an element, with or without the invalid one. */
  function PutRecord(k: nat, e: Elem, invalidate: bool): seq<Write<Record>> {
    RecordWrites(k, e.stream, e.base, IpLength(e.stream), invalidate)
  }

  /** The record writes never make a record valid over words that are not its stream's. */
  lemma RecordWritesWithin(k: nat, e: Elem, invalidate: bool)
    requires Readable(LeaseOf(e))
    ensures RecordsOnly(PutRecord(k, e, invalidate), k, e.base, |Channels(e.stream)|)
  {
    var r, l := RecordOf(e), LeaseOf(e);
    forall j | InWindow(r, j) ensures e.base <= j < e.base + |Channels(e.stream)| {
      WindowInLease(r, l, j);
    }
  }

  lemma PutGuards(s: Consistent, pre: seq<Write<Record>>, k: nat, e: Elem, invalidate: bool, own: map<nat, Lease>)
    requires AllReadable(Leases(s.streams)) && Readable(LeaseOf(e))
    requires k < |s.hw.records| && Places(s.used, Leases(s.streams), k, LeaseOf(e), pre)
    requires Owns(own, Leases(s.streams)) && k in own && forall t | t in Channels(e.stream) :: t in own[k].tracks
    ensures GuardedAlong(s.hw, InstallWrites(pre, k, e, invalidate), own)
  {
    InvGuards(s, own);
    RecordWritesWithin(k, e, invalidate);
    PlacingGuards(s.used, s.hw, Leases(s.streams), k, LeaseOf(e), pre, PutRecord(k, e, invalidate), own);
  }

  lemma DropGuards(s: Consistent, k: nat, own: map<nat, Lease>)
    requires AllReadable(Leases(s.streams)) && k in s.streams && Owns(own, Leases(s.streams))
    ensures GuardedAlong(s.hw, FreeStreamWrites(s, k), own)
  {
    InvGuards(s, own);
    ReleasingGuards(s.used, s.hw, Leases(s.streams), k, ZERO_RECORD, own);
  }

  /** The tracks each stream routes in either of two states. */
  function EitherTracks(s: State, s': State): map<nat, Lease> {
    Either(Leases(s.streams), Leases(s'.streams))
  }

  lemma ChangeGuards(s: Consistent, o: Outcome, c: Change<Stream, Record>)
    requires Does(s, o, c) && AllReadable(Leases(s.streams)) && AllReadable(Leases(o.state.streams))
    ensures GuardedAlong(s.hw, o.writes, EitherTracks(s, o.state))
  {
    var own := EitherTracks(s, o.state);
    EitherOwns(Leases(s.streams), Leases(o.state.streams));
    match c
    case Idle => IdleGuards(s, own);
    case Put(k, e, pre) =>
      assert Leases(o.state.streams)[k] == LeaseOf(e);
      PutGuards(s, pre, k, e, k !in s.streams, own);
    case Drop(k) => DropGuards(s, k, own);
  }

  lemma VisitGuards(s: Consistent, filp: Handle, k: nat)
    requires AllReadable(Leases(s.streams))
    ensures GuardedAlong(s.hw, Visit(s, filp, k).writes, Leases(s.streams))
    ensures ApplyAll(s.hw, Visit(s, filp, k).writes) == Visit(s, filp, k).state.hw
    ensures AllReadable(Leases(Visit(s, filp, k).state.streams))
    ensures Owns(Leases(s.streams), Leases(Visit(s, filp, k).state.streams))
  {
    var c := VisitDoes(s, filp, k);
    if c.Drop? {
      DropGuards(s, k, Leases(s.streams));
      LeasesUpdate(s.streams, k, s.streams[k]);
    } else {
      IdleGuards(s, Leases(s.streams));
    }
  }

  lemma {:induction false} CloseGuards(s: Consistent, filp: Handle, k: nat, ws: seq<Write<Record>>)
    requires AllReadable(Leases(s.streams)) && ws == CloseFrom(s, filp, k).writes
    ensures GuardedAlong(s.hw, ws, Leases(s.streams))
    decreases |s.hw.records| - k
  {
    if k >= |s.hw.records| {
      IdleGuards(s, Leases(s.streams));
    } else {
      var v := Visit(s, filp, k);
      var rest := CloseFrom(v.state, filp, k + 1).writes;
      VisitKeeps(s, filp, k);
      VisitGuards(s, filp, k);
      CloseGuards(v.state, filp, k + 1, rest);
      AlongWeakens(v.state.hw, rest, Leases(v.state.streams), Leases(s.streams));
      AlongConcat(s.hw, v.writes, rest, Leases(s.streams));
    }
  }

  /** Whatever the command and its result, after every single write of it each valid record shows only
      tracks that its own stream routes before or after the command. */
  lemma StepGuards(s: Consistent, filp: Handle, cmd: Command)
    requires AllReadable(Leases(s.streams)) && AllReadable(Leases(Step(s, filp, cmd).state.streams))
    ensures GuardedAlong(s.hw, Step(s, filp, cmd).writes, EitherTracks(s, Step(s, filp, cmd).state))
  {
    var o := Step(s, filp, cmd);
    if cmd.Close? {
      CloseGuards(s, filp, 0, o.writes);
      EitherOwns(Leases(s.streams), Leases(o.state.streams));
      AlongWeakens(s.hw, o.writes, Leases(s.streams), EitherTracks(s, o.state));
    } else {
      var c := CommandDoes(s, filp, cmd);
      ChangeGuards(s, o, c);
    }
  }

  // ------------------------------------------------------------------------------------------
  // Bystanders
  // ------------------------------------------------------------------------------------------

  lemma PutSpares(s: Consistent, pre: seq<Write<Record>>, k: nat, e: Elem, invalidate: bool, l: nat)
    requires Places(s.used, Leases(s.streams), k, LeaseOf(e), pre)
    requires l in s.streams && l != k
    ensures Spares(InstallWrites(pre, k, e, invalidate), l, Leases(s.streams)[l])
  {
    var m := Leases(s.streams);
    PlacingSpares(s.used, s.hw.cells, m, k, LeaseOf(e), pre, l);
    SparesConcat(pre + SetWrites<Record>(e.base, Channels(e.stream)), PutRecord(k, e, invalidate), l, m[l]);
  }

  /** The ranges of the streams in question do not meet lease `l`. */
  ghost predicate Clear(streams: map<nat, Elem>, filp: Handle, l: Lease) {
    forall i, j | i in streams && streams[i].owner == filp && InLease(l, j) :: !InLease(LeaseOf(streams[i]), j)
  }

  lemma DropSpares(s: State, k: nat, i: nat, l: Lease)
    requires k in s.streams && k < |s.hw.records| && k != i
    requires forall j | InLease(l, j) :: !InLease(LeaseOf(s.streams[k]), j)
    ensures Spares(FreeStreamWrites(s, k), i, l)
  {
    MutingSpares<Record>(LeaseOf(s.streams[k]), i, l);
  }

  lemma ChangeSpares(s: Consistent, o: Outcome, c: Change<Stream, Record>, l: nat)
    requires Does(s, o, c) && l in s.streams && !Changes(c, l)
    ensures Spares(o.writes, l, Leases(s.streams)[l])
  {
    match c
    case Idle =>
    case Put(k, e, pre) => PutSpares(s, pre, k, e, k !in s.streams, l);
    case Drop(k) => DropSpares(s, k, l, Leases(s.streams)[l]);
  }

  lemma {:induction false} CloseSpares(s: State, filp: Handle, k: nat, i: nat, l: Lease)
    requires Clear(s.streams, filp, l) && (i in s.streams ==> s.streams[i].owner != filp)
    ensures Spares(CloseFrom(s, filp, k).writes, i, l)
    decreases |s.hw.records| - k
  {
    if k < |s.hw.records| {
      var v := Visit(s, filp, k);
      if k in s.streams && s.streams[k].owner == filp {
        DropSpares(s, k, i, l);
      }
      CloseSpares(v.state, filp, k + 1, i, l);
      SparesConcat(v.writes, CloseFrom(v.state, filp, k + 1).writes, i, l);
    }
  }

  lemma OthersClear(s: Consistent, filp: Handle, i: nat)
    requires i in s.streams && s.streams[i].owner != filp
    ensures Clear(s.streams, filp, Leases(s.streams)[i])
  {
  }

  /** No write of a command touches the record or a word of a stream it does not name. */
  lemma StepSpares(s: Consistent, filp: Handle, cmd: Command, l: nat)
    requires Bystander(s.streams, filp, cmd, l)
    ensures Spares(Step(s, filp, cmd).writes, l, Leases(s.streams)[l])
  {
    if cmd.Close? {
      OthersClear(s, filp, l);
      CloseSpares(s, filp, 0, l, Leases(s.streams)[l]);
    } else {
      var c := CommandDoes(s, filp, cmd);
      ChangeSpares(s, Step(s, filp, cmd), c, l);
    }
  }

  // ------------------------------------------------------------------------------------------
  // Every valid record is the record of a stored stream
  // ------------------------------------------------------------------------------------------

  /** `r` is the record of the stream stored at index `i`. */
  ghost predicate RecordIn(s: State, i: nat, r: Record) {
    i in s.streams && r == RecordOf(s.streams[i])
  }

  lemma PutLays(pre: seq<Write<Record>>, k: nat, e: Elem, invalidate: bool)
    requires forall i | 0 <= i < |pre| :: pre[i].CellWrite?
    ensures Lays(InstallWrites(pre, k, e, invalidate), k, RecordOf(e))
  {
    var ws := InstallWrites(pre, k, e, invalidate);
    assert forall i | 0 <= i < |pre| :: ws[i] == pre[i];
  }

  lemma PutRecords(s: State, pre: seq<Write<Record>>, k: nat, e: Elem, ws: seq<Write<Record>>, i: nat, p: nat)
    requires RecordsInv(s) && i < |s.hw.records| && p <= |ws|
    requires Places(s.used, Leases(s.streams), k, LeaseOf(e), pre) && ws == InstallWrites(pre, k, e, k !in s.streams)
    ensures var r := ApplyAll(s.hw, ws[..p]).records[i];
            r.valid ==> RecordIn(s, i, r) || (i == k && r == RecordOf(e))
  {
    PlacesCells(s.used, Leases(s.streams), k, LeaseOf(e), pre);
    PutLays(pre, k, e, k !in s.streams);
    LaidAlong(s.hw, ws, k, RecordOf(e), i, p);
  }

  lemma ChangeRecords(s: State, o: Outcome, c: Change<Stream, Record>, i: nat, p: nat)
    requires RecordsInv(s) && Does(s, o, c) && i < |s.hw.records| && p <= |o.writes|
    ensures var r := ApplyAll(s.hw, o.writes[..p]).records[i];
            r.valid ==> RecordIn(s, i, r) || RecordIn(o.state, i, r)
  {
    match c
    case Idle =>
    case Put(k, e, pre) => PutRecords(s, pre, k, e, o.writes, i, p);
    case Drop(k) => InvalidAlong(s.hw, o.writes, i, p);
  }

  lemma {:induction false} CloseInvalidates(s: State, filp: Handle, k: nat)
    ensures Invalidates(CloseFrom(s, filp, k).writes)
    decreases |s.hw.records| - k
  {
    if k < |s.hw.records| {
      var v := Visit(s, filp, k);
      assert Invalidates(v.writes);
      CloseInvalidates(v.state, filp, k + 1);
    }
  }

  /** After every single write of a command each valid record is the record of the stream stored at
      its index before or after the command. */
  lemma StepRecords(s: Consistent, filp: Handle, cmd: Command, i: nat, p: nat)
    requires i < |s.hw.records| && p <= |Step(s, filp, cmd).writes|
    ensures var o := Step(s, filp, cmd);
            var r := ApplyAll(s.hw, o.writes[..p]).records[i];
            r.valid ==> RecordIn(s, i, r) || RecordIn(o.state, i, r)
  {
    if cmd.Close? {
      CloseInvalidates(s, filp, 0);
      InvalidAlong(s.hw, Step(s, filp, cmd).writes, i, p);
    } else {
      var c := CommandDoes(s, filp, cmd);
      ChangeRecords(s, Step(s, filp, cmd), c, i, p);
    }
  }

  // ------------------------------------------------------------------------------------------
  // How a record becomes valid
  // ------------------------------------------------------------------------------------------

  /** A valid record is only ever written over a valid one, or over the same record, complete and still
      invalid. */
  ghost predicate FilledFirst(hw: Hardware<Record>, ws: seq<Write<Record>>) {
    forall w | 0 <= w < |ws| && Validates(hw, ws[w]) ::
      var before := ApplyAll(hw, ws[..w]).records[ws[w].index];
      before.valid || before == ws[w].record.(valid := false)
  }

  lemma AddFills(hw: Hardware<Record>, pre: seq<Write<Record>>, k: nat, e: Elem)
    requires k < |hw.records| && forall i | 0 <= i < |pre| :: pre[i].CellWrite?
    ensures FilledFirst(hw, InstallWrites(pre, k, e, true))
  {
    var ws := InstallWrites(pre, k, e, true);
    assert forall i | 0 <= i < |pre| :: ws[i] == pre[i];
    var last := |ws| - 1;
    assert ws[last - 1] == RecordWrite(k, Fill(e.stream, e.base, IpLength(e.stream)));
    JustWritten(hw, ws, last, k);
  }

  lemma UpdateFills(hw: Hardware<Record>, pre: seq<Write<Record>>, k: nat, e: Elem)
    requires k < |hw.records| && hw.records[k].valid && forall i | 0 <= i < |pre| :: pre[i].CellWrite?
    ensures FilledFirst(hw, InstallWrites(pre, k, e, false))
  {
    var ws := InstallWrites(pre, k, e, false);
    var last := |ws| - 1;
    assert forall i | 0 <= i < |pre| :: ws[i] == pre[i];
    CellsOnly(hw, ws, last);
  }

  lemma ChangeFills(s: State, o: Outcome, c: Change<Stream, Record>)
    requires RecordsInv(s) && Does(s, o, c)
    ensures FilledFirst(s.hw, o.writes)
  {
    match c
    case Idle =>
    case Put(k, e, pre) =>
      PlacesCells(s.used, Leases(s.streams), k, LeaseOf(e), pre);
      if k in s.streams { UpdateFills(s.hw, pre, k, e); } else { AddFills(s.hw, pre, k, e); }
    case Drop(k) =>
  }

  /** So every command makes records valid. */
  lemma StepFills(s: Consistent, filp: Handle, cmd: Command)
    ensures FilledFirst(s.hw, Step(s, filp, cmd).writes)
  {
    if cmd.Close? {
      CloseInvalidates(s, filp, 0);
    } else {
      var c := CommandDoes(s, filp, cmd);
      ChangeFills(s, Step(s, filp, cmd), c);
    }
  }

  /** Only the last write of a command makes a record valid: everything else is in place by then. */
  lemma ValidLast(s: Consistent, filp: Handle, cmd: Command, w: nat)
    requires w < |Step(s, filp, cmd).writes| && Validates(s.hw, Step(s, filp, cmd).writes[w])
    ensures w == |Step(s, filp, cmd).writes| - 1
  {
    if cmd.Close? {
      CloseInvalidates(s, filp, 0);
    } else {
      var c := CommandDoes(s, filp, cmd);
      ChangeValidLast(s, Step(s, filp, cmd), c, w);
    }
  }

  lemma ChangeValidLast(s: State, o: Outcome, c: Change<Stream, Record>, w: nat)
    requires Does(s, o, c) && w < |o.writes| && Validates(s.hw, o.writes[w])
    ensures w == |o.writes| - 1
  {
    if c.Put? {
      PlacesCells(s.used, Leases(s.streams), c.index, LeaseOf(c.elem), c.pre);
      assert forall i | 0 <= i < |c.pre| :: o.writes[i] == c.pre[i];
    }
  }

  /** A stream is silent before its record goes: when the last write of a deletion makes the record
      invalid, all its words are muted already. */
  lemma DropMutesFirst(s: Consistent, k: nat)
    requires k in s.streams
    ensures var ws := FreeStreamWrites(s, k);
            var h := ApplyAll(s.hw, ws[..|ws| - 1]);
            && h.records == s.hw.records
            && (forall j | InLease(LeaseOf(s.streams[k]), j) :: h.cells[j] == Mute)
            && ws[|ws| - 1].RecordWrite? && ws[|ws| - 1].index == k && !ws[|ws| - 1].record.valid
  {
    var l := Leases(s.streams)[k];
    assert l.base + |l.tracks| <= |s.hw.cells|;
    var ws := FreeStreamWrites(s, k);
    assert ws[..|ws| - 1] == FreeWrites<Record>(l.base, |l.tracks|);
    FreeWritesEffect(s.hw, l.base, |l.tracks|);
  }

  lemma FilledConcat(hw: Hardware<Record>, a: seq<Write<Record>>, b: seq<Write<Record>>)
    requires FilledFirst(hw, a) && FilledFirst(ApplyAll(hw, a), b)
    ensures FilledFirst(hw, a + b)
  {
    forall w | 0 <= w < |a + b| && Validates(hw, (a + b)[w])
      ensures ApplyAll(hw, (a + b)[..w])
              == if w <= |a| then ApplyAll(hw, a[..w]) else ApplyAll(ApplyAll(hw, a), b[..w - |a|])
    {
      PrefixOfConcat(hw, a, b, w);
    }
    assert a[..|a|] == a && ApplyAll(ApplyAll(hw, a), b[..0]) == ApplyAll(hw, a);
  }

  // ------------------------------------------------------------------------------------------
  // Writes account for the hardware
  // ------------------------------------------------------------------------------------------

  lemma {:induction false} CloseWrites(s: State, filp: Handle, k: nat)
    ensures ApplyAll(s.hw, CloseFrom(s, filp, k).writes) == CloseFrom(s, filp, k).state.hw
    ensures CloseFrom(s, filp, k).state.maxTracks == s.maxTracks
    decreases |s.hw.records| - k
  {
    if k < |s.hw.records| {
      var v := Visit(s, filp, k);
      var r := CloseFrom(v.state, filp, k + 1);
      CloseWrites(v.state, filp, k + 1);
      ApplyAllConcat(s.hw, v.writes, r.writes);
      assert ApplyAll(s.hw, v.writes) == v.state.hw;
    }
  }

  /** The writes of a command account for its whole change of the hardware. */
  lemma StepWrites(s: State, filp: Handle, cmd: Command)
    ensures ApplyAll(s.hw, Step(s, filp, cmd).writes) == Step(s, filp, cmd).state.hw
    ensures Step(s, filp, cmd).state.maxTracks == s.maxTracks
  {
    match cmd
    case Add(stream) => assert Step(s, filp, cmd) == AddStep(s, filp, stream);
    case Update(k, stream) => assert Step(s, filp, cmd) == UpdateStep(s, filp, k, stream);
    case Delete(k) => assert Step(s, filp, cmd) == DeleteStep(s, filp, k);
    case Close => CloseWrites(s, filp, 0);
  }
}
