/**
 External timestamps: records of four words read from a FIFO, found by their start marker.  The
 handler resynchronises on words that belong to no record, and exposes the PTP and RTP time of the
 last record as a pair.
 */
module ExttsFraming {
  import opened MachineWords
  import opened Options

  const START_OF_TS: int := 0x1588
  const MAX_SEARCH: nat := 16

  datatype Record = Record(secondsHi: Word16, seconds: Word32, nanoseconds: Word32, rtp: Word32)

  predicate IsStart(w: Word32) {
    w as int / TWO_16 == START_OF_TS
  }

  function Encode(r: Record): seq<Word32> {
    [START_OF_TS * TWO_16 + r.secondsHi as int, r.seconds, r.nanoseconds, r.rtp]
  }

  /** The event time: nanoseconds in 64 bits. */
  function EventTime(r: Record): Word64 {
    ((r.secondsHi as int * TWO_32 + r.seconds as int) * NSEC + r.nanoseconds as int) % TWO_64
  }

  /** Seconds and nanoseconds can be told from the event time exactly if it fits 64 bits. */
  lemma EventTimeReadsBack(r: Record)
    requires r.nanoseconds < NSEC
    ensures var seconds := r.secondsHi as int * TWO_32 + r.seconds as int;
            EventTime(r) as int / NSEC == seconds && EventTime(r) as int % NSEC == r.nanoseconds as int <==>
            seconds * NSEC + r.nanoseconds as int < TWO_64
  {
    var seconds := r.secondsHi as int * TWO_32 + r.seconds as int;
    var t := EventTime(r) as int;
    Unmixed(seconds, r.nanoseconds as int);
    assert t == t / NSEC * NSEC + t % NSEC;
  }

  lemma Unmixed(q: nat, r: nat)
    requires r < NSEC
    ensures (q * NSEC + r) / NSEC == q && (q * NSEC + r) % NSEC == r
  {
  }

  // ------------------------------------------------------------------------------------------
  // Reading; `fifo(i)` is the i-th word ever read
  // ------------------------------------------------------------------------------------------

  /** The first of `n` words from `pos` on that starts a record. */
  function FindStart(fifo: nat -> Word32, pos: nat, n: nat): (r: Option<nat>)
    ensures r.Some? ==> pos <= r.value < pos + n && IsStart(fifo(r.value))
    ensures forall j: nat | pos <= j < pos + n && (r.Some? ==> j < r.value) :: !IsStart(fifo(j))
    decreases n
  {
    if n == 0 then None
    else if IsStart(fifo(pos)) then Some(pos)
    else FindStart(fifo, pos + 1, n - 1)
  }

  function RecordAt(fifo: nat -> Word32, i: nat): Record {
    Record(fifo(i) as int % TWO_16, fifo(i + 1), fifo(i + 2), fifo(i + 3))
  }

  /** Records read, and the position behind them. */
  datatype Progress = Progress(records: seq<Record>, pos: nat)

  /** One record, if a start is found within `search` words, and the position behind it. */
  function ReadOne(fifo: nat -> Word32, pos: nat, search: nat): Progress {
    match FindStart(fifo, pos, search)
    case None => Progress([], pos + search)
    case Some(i) => Progress([RecordAt(fifo, i)], i + 4)
  }

  /** The records of `n` rounds of reading. */
  function ReadAll(fifo: nat -> Word32, pos: nat, n: nat, search: nat): Progress
    decreases n
  {
    if n == 0 then Progress([], pos) else
    var before := ReadAll(fifo, pos, n - 1, search);
    var last := ReadOne(fifo, before.pos, search);
    Progress(before.records + last.records, last.pos)
  }

  // ------------------------------------------------------------------------------------------
  // Round trip
  // ------------------------------------------------------------------------------------------

  /** A record behind words that start none. */
  datatype Chunk = Chunk(garbage: seq<Word32>, record: Record)

  predicate MarkerFree(garbage: seq<Word32>) {
    forall i | 0 <= i < |garbage| :: !IsStart(garbage[i])
  }

  function Words(chunks: seq<Chunk>): seq<Word32> {
    if chunks == [] then []
    else var c := chunks[|chunks| - 1]; Words(chunks[..|chunks| - 1]) + c.garbage + Encode(c.record)
  }

  function Records(chunks: seq<Chunk>): seq<Record> {
    seq(|chunks|, i requires 0 <= i < |chunks| => chunks[i].record)
  }

  /** The words read from position `pos` on. */
  ghost predicate Holds(fifo: nat -> Word32, pos: nat, words: seq<Word32>) {
    forall j: nat | pos <= j < pos + |words| :: fifo(j) == words[j - pos]
  }

  lemma HoldsParts(fifo: nat -> Word32, pos: nat, a: seq<Word32>, b: seq<Word32>)
    requires Holds(fifo, pos, a + b)
    ensures Holds(fifo, pos, a) && Holds(fifo, pos + |a|, b)
  {
    forall j: nat | pos <= j < pos + |a| ensures fifo(j) == a[j - pos] {
      assert fifo(j) == (a + b)[j - pos];
    }
    forall j: nat | pos + |a| <= j < pos + |a| + |b| ensures fifo(j) == b[j - (pos + |a|)] {
      assert fifo(j) == (a + b)[j - pos];
    }
  }

  lemma EncodeDecodes(fifo: nat -> Word32, i: nat, r: Record)
    requires Holds(fifo, i, Encode(r))
    ensures IsStart(fifo(i)) && RecordAt(fifo, i) == r
  {
    var e := Encode(r);
    assert fifo(i) == e[0] && fifo(i + 1) == e[1] && fifo(i + 2) == e[2] && fifo(i + 3) == e[3];
  }

  lemma {:induction false} SearchSkips(fifo: nat -> Word32, pos: nat, n: nat, g: nat)
    requires g <= n && forall j: nat | pos <= j < pos + g :: !IsStart(fifo(j))
    ensures FindStart(fifo, pos, n) == FindStart(fifo, pos + g, n - g)
    decreases g
  {
    if g > 0 {
      SearchSkips(fifo, pos + 1, n - 1, g - 1);
    }
  }

  /** A record is recovered, whatever its payload words, exactly if fewer than `search` words that
      start no record precede it. */
  lemma Resynchronises(fifo: nat -> Word32, pos: nat, c: Chunk, search: nat)
    requires MarkerFree(c.garbage) && Holds(fifo, pos, c.garbage + Encode(c.record))
    ensures |c.garbage| < search ==> ReadOne(fifo, pos, search) == Progress([c.record], pos + |c.garbage| + 4)
    ensures |c.garbage| >= search ==> ReadOne(fifo, pos, search) == Progress([], pos + search)
  {
    var g := |c.garbage|;
    HoldsParts(fifo, pos, c.garbage, Encode(c.record));
    if g < search {
      SearchSkips(fifo, pos, search, g);
      EncodeDecodes(fifo, pos + g, c.record);
    } else {
      SearchSkips(fifo, pos, search, search);
    }
  }

  /** Any records, each behind fewer than `search` words that start none, are read back in order and
      nothing else is. */
  lemma {:induction false} RoundTrip(fifo: nat -> Word32, pos: nat, chunks: seq<Chunk>, search: nat)
    requires Holds(fifo, pos, Words(chunks))
    requires forall i | 0 <= i < |chunks| :: MarkerFree(chunks[i].garbage) && |chunks[i].garbage| < search
    ensures ReadAll(fifo, pos, |chunks|, search) == Progress(Records(chunks), pos + |Words(chunks)|)
    decreases |chunks|
  {
    if chunks == [] {
      assert Records(chunks) == [];
    } else {
      var init, c := chunks[..|chunks| - 1], chunks[|chunks| - 1];
      LastHeld(fifo, pos, chunks, init, c);
      RoundTrip(fifo, pos, init, search);
      AddRound(fifo, pos, |init|, search, Records(init), pos + |Words(init)|, c);
      LastChunk(chunks, init, c);
    }
  }

  lemma LastHeld(fifo: nat -> Word32, pos: nat, chunks: seq<Chunk>, init: seq<Chunk>, c: Chunk)
    requires chunks != [] && init == chunks[..|chunks| - 1] && c == chunks[|chunks| - 1]
    requires Holds(fifo, pos, Words(chunks))
    ensures Holds(fifo, pos, Words(init)) && Holds(fifo, pos + |Words(init)|, c.garbage + Encode(c.record))
  {
    LastChunk(chunks, init, c);
    HoldsParts(fifo, pos, Words(init), c.garbage + Encode(c.record));
  }

  lemma NextRound(fifo: nat -> Word32, n: nat, search: nat)
    ensures var before := ReadAll(fifo, 0, n, search);
            var last := ReadOne(fifo, before.pos, search);
            ReadAll(fifo, 0, n + 1, search) == Progress(before.records + last.records, last.pos)
  {
  }

  /** What the handler reads: records that are each preceded by at most 15 stray words. */
  lemma HandlerReadsBack(fifo: nat -> Word32, chunks: seq<Chunk>)
    requires Holds(fifo, 0, Words(chunks))
    requires forall i | 0 <= i < |chunks| :: MarkerFree(chunks[i].garbage) && |chunks[i].garbage| <= 15
    ensures ReadAll(fifo, 0, |chunks|, MAX_SEARCH).records == Records(chunks)
  {
    RoundTrip(fifo, 0, chunks, MAX_SEARCH);
  }

  /** And exactly those: behind 16 or more stray words a record is not found. */
  lemma HandlerLimit(fifo: nat -> Word32, c: Chunk)
    requires MarkerFree(c.garbage) && Holds(fifo, 0, c.garbage + Encode(c.record))
    ensures ReadAll(fifo, 0, 1, MAX_SEARCH).records == if |c.garbage| <= 15 then [c.record] else []
  {
    Resynchronises(fifo, 0, c, MAX_SEARCH);
    NextRound(fifo, 0, MAX_SEARCH);
  }

  lemma LastChunk(chunks: seq<Chunk>, init: seq<Chunk>, c: Chunk)
    requires chunks != [] && init == chunks[..|chunks| - 1] && c == chunks[|chunks| - 1]
    ensures Words(chunks) == Words(init) + (c.garbage + Encode(c.record))
    ensures Records(chunks) == Records(init) + [c.record]
  {
  }

  lemma AddRound(fifo: nat -> Word32, pos: nat, n: nat, search: nat, init: seq<Record>, p: nat, c: Chunk)
    requires ReadAll(fifo, pos, n, search) == Progress(init, p)
    requires MarkerFree(c.garbage) && |c.garbage| < search && Holds(fifo, p, c.garbage + Encode(c.record))
    ensures ReadAll(fifo, pos, n + 1, search) == Progress(init + [c.record], p + |c.garbage| + 4)
  {
    Resynchronises(fifo, p, c, search);
  }

  // ------------------------------------------------------------------------------------------
  // The handler
  // ------------------------------------------------------------------------------------------

  class Extts {
    var lastPtp: Word64
    var lastRtp: Word32
    var events: seq<Word64>
    ghost var published: seq<Record>

    /** The exposed pair is from one record, the last one published. */
    ghost predicate Valid()
      reads this
    {
      && |events| == |published|
      && (forall i | 0 <= i < |events| :: events[i] == EventTime(published[i]))
      && (published == [] ==> lastPtp == 0 && lastRtp == 0)
      && (published != [] ==>
            var r := published[|published| - 1]; lastPtp == EventTime(r) && lastRtp == r.rtp)
    }

    constructor ()
      ensures Valid() && published == []
    {
      lastPtp, lastRtp, events, published := 0, 0, [], [];
    }

    /** Reads as many records as the hardware counts. */
    method ExttsIrq(count: nat, fifo: nat -> Word32)
      requires Valid()
      modifies this
      ensures Valid() && published == old(published) + ReadAll(fifo, 0, count, MAX_SEARCH).records
    {
      var pos := 0;
      for n := 0 to count
        invariant Valid() && published == old(published) + ReadAll(fifo, 0, n, MAX_SEARCH).records
        invariant pos == ReadAll(fifo, 0, n, MAX_SEARCH).pos
      {
        pos := ReadNext(fifo, pos, MAX_SEARCH);
        NextRound(fifo, n, MAX_SEARCH);
      }
    }

    /** One round: search for a start, read the rest of the record, publish it. */
    method ReadNext(fifo: nat -> Word32, pos: nat, search: nat) returns (next: nat)
      requires Valid() && search > 0
      modifies this
      ensures Valid()
      ensures published == old(published) + ReadOne(fifo, pos, search).records && next == ReadOne(fifo, pos, search).pos
    {
      var sot, found;
      sot, found, next := Search(fifo, pos, search);
      if found {
        var r := Record(sot as int % TWO_16, fifo(next), fifo(next + 1), fifo(next + 2));
        assert r == RecordAt(fifo, next - 1);
        next := next + 3;
        Publish(r);
      }
    }

    method Publish(r: Record)
      requires Valid()
      modifies this
      ensures Valid() && published == old(published) + [r]
    {
      var seconds := r.secondsHi as int * TWO_32 + r.seconds as int;
      var timestamp := (seconds * NSEC + r.nanoseconds as int) % TWO_64;
      lastPtp := timestamp;
      lastRtp := r.rtp;
      events := events + [timestamp];
      published := published + [r];
    }

    /** What the sysfs file shows. */
    method Show() returns (ptp: Word64, rtp: Word32)
      requires Valid()
      ensures published != [] ==>
                var r := published[|published| - 1]; ptp == EventTime(r) && rtp == r.rtp
    {
      ptp, rtp := lastPtp, lastRtp;
    }
  }

  /** Reads words until one starts a record, at most `search`. */
  method Search(fifo: nat -> Word32, pos: nat, search: nat) returns (sot: Word32, found: bool, next: nat)
    requires search > 0
    ensures found <==> FindStart(fifo, pos, search).Some?
    ensures found ==> FindStart(fifo, pos, search) == Some(next - 1) && sot == fifo(next - 1)
    ensures !found ==> next == pos + search
  {
    var ctr := search;
    next := pos;
    while true
      invariant 0 < ctr <= search && next == pos + (search - ctr)
      invariant FindStart(fifo, pos, search) == FindStart(fifo, next, ctr)
      decreases ctr
    {
      sot := fifo(next);
      next := next + 1;
      if sot as int / TWO_16 == START_OF_TS {
        return sot, true, next;
      }
      ctr := ctr - 1;
      if ctr == 0 {
        return sot, false, next;
      }
    }
  }
}
