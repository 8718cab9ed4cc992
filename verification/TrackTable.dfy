/**
 The track table of the stream device, at value level.

 Each direction (RX and TX) has a hardware table of track words, a software bitmap `used` of the
 words that are leased to a stream, and a hardware table of stream records.  A stream leases a
 contiguous range of track words, found first-fit.
 */
module TrackTable {

  import opened Options

  /** A track-table word: a track number, or bit 31 set (the channel is routed nowhere). */
  datatype Cell = Mute | Track(number: nat)

  function CellOf(track: int): Cell {
    if track >= 0 then Track(track) else Mute
  }

  // ------------------------------------------------------------------------------------------
  // First fit
  // ------------------------------------------------------------------------------------------

  /** A request for `n` words can be served at `b`.  An empty request still needs one free word. */
  predicate Fits(used: seq<bool>, n: nat, b: nat) {
    b < |used| && !used[b] && b + n <= |used| && forall j | b <= j < b + n :: !used[j]
  }

  function FirstFitFrom(used: seq<bool>, n: nat, b: nat): (r: Option<nat>)
    requires b <= |used|
    ensures r.Some? ==> b <= r.value && Fits(used, n, r.value)
    ensures forall c: nat | b <= c && (r.Some? ==> c < r.value) :: !Fits(used, n, c)
    decreases |used| - b
  {
    if b == |used| then None
    else if Fits(used, n, b) then Some(b)
    else FirstFitFrom(used, n, b + 1)
  }

  /** The least start at which `n` words fit, if there is one. */
  function FirstFit(used: seq<bool>, n: nat): (r: Option<nat>)
    ensures r.Some? ==> Fits(used, n, r.value)
    ensures forall c: nat | r.Some? ==> c < r.value :: !Fits(used, n, c)
  {
    FirstFitFrom(used, n, 0)
  }

  lemma FirstFitUnique(used: seq<bool>, n: nat, b: nat)
    requires Fits(used, n, b)
    requires forall c: nat | c < b :: !Fits(used, n, c)
    ensures FirstFit(used, n) == Some(b)
  {
  }

  function Marked(used: seq<bool>, b: nat, n: nat, value: bool): (r: seq<bool>)
    ensures |r| == |used|
    ensures forall j | 0 <= j < |used| :: r[j] == if b <= j < b + n then value else used[j]
  {
    seq(|used|, j requires 0 <= j < |used| => if b <= j < b + n then value else used[j])
  }

  // ------------------------------------------------------------------------------------------
  // Hardware writes
  // ------------------------------------------------------------------------------------------

  /** The two memory-mapped tables of one direction. */
  datatype Hardware<R> = Hardware(cells: seq<Cell>, records: seq<R>)

  datatype Write<R> = CellWrite(index: nat, cell: Cell) | RecordWrite(index: nat, record: R)

  function Apply<R>(hw: Hardware<R>, w: Write<R>): Hardware<R> {
    match w
    case CellWrite(i, c) => if i < |hw.cells| then hw.(cells := hw.cells[i := c]) else hw
    case RecordWrite(i, r) => if i < |hw.records| then hw.(records := hw.records[i := r]) else hw
  }

  function ApplyAll<R>(hw: Hardware<R>, ws: seq<Write<R>>): (r: Hardware<R>)
    ensures |r.cells| == |hw.cells| && |r.records| == |hw.records|
  {
    if ws == [] then hw else Apply(ApplyAll(hw, ws[..|ws| - 1]), ws[|ws| - 1])
  }

  lemma {:induction false} ApplyAllConcat<R>(hw: Hardware<R>, a: seq<Write<R>>, b: seq<Write<R>>)
    ensures ApplyAll(hw, a + b) == ApplyAll(ApplyAll(hw, a), b)
    decreases |b|
  {
    if b == [] {
      assert a + b == a;
    } else {
      var b' := b[..|b| - 1];
      ApplyAllConcat(hw, a, b');
      assert (a + b)[..|a + b| - 1] == a + b';
    }
  }

  /** Writing a stream's tracks into its range, lowest word first. */
  function SetWrites<R>(b: nat, tracks: seq<int>): (ws: seq<Write<R>>)
    ensures |ws| == |tracks|
  {
    seq(|tracks|, i requires 0 <= i < |tracks| => CellWrite(b + i, CellOf(tracks[i])))
  }

  /** Muting a range, lowest word first. */
  function FreeWrites<R>(b: nat, n: nat): (ws: seq<Write<R>>)
    ensures |ws| == n
  {
    seq(n, i requires 0 <= i < n => CellWrite(b + i, Mute))
  }

  function CellsSet(cells: seq<Cell>, b: nat, tracks: seq<int>): (r: seq<Cell>)
    ensures |r| == |cells|
    ensures forall j | 0 <= j < |cells| ::
              r[j] == if b <= j < b + |tracks| then CellOf(tracks[j - b]) else cells[j]
  {
    seq(|cells|, j requires 0 <= j < |cells| =>
      if b <= j < b + |tracks| then CellOf(tracks[j - b]) else cells[j])
  }

  function CellsMuted(cells: seq<Cell>, b: nat, n: nat): (r: seq<Cell>)
    ensures |r| == |cells|
    ensures forall j | 0 <= j < |cells| :: r[j] == if b <= j < b + n then Mute else cells[j]
  {
    seq(|cells|, j requires 0 <= j < |cells| => if b <= j < b + n then Mute else cells[j])
  }

  lemma {:induction false} SetWritesEffect<R>(hw: Hardware<R>, b: nat, tracks: seq<int>)
    requires b + |tracks| <= |hw.cells|
    ensures ApplyAll(hw, SetWrites<R>(b, tracks)) == hw.(cells := CellsSet(hw.cells, b, tracks))
    decreases |tracks|
  {
    if tracks == [] {
      assert CellsSet(hw.cells, b, tracks) == hw.cells;
    } else {
      var t' := tracks[..|tracks| - 1];
      SetWritesEffect(hw, b, t');
      var ws := SetWrites<R>(b, tracks);
      assert ws[..|ws| - 1] == SetWrites<R>(b, t');
      assert CellsSet(hw.cells, b, tracks) ==
             CellsSet(hw.cells, b, t')[b + |t'| := CellOf(tracks[|t'|])];
    }
  }

  lemma {:induction false} FreeWritesEffect<R>(hw: Hardware<R>, b: nat, n: nat)
    requires b + n <= |hw.cells|
    ensures ApplyAll(hw, FreeWrites<R>(b, n)) == hw.(cells := CellsMuted(hw.cells, b, n))
    decreases n
  {
    if n == 0 {
      assert CellsMuted(hw.cells, b, n) == hw.cells;
    } else {
      FreeWritesEffect(hw, b, n - 1);
      var ws := FreeWrites<R>(b, n);
      assert ws[..|ws| - 1] == FreeWrites<R>(b, n - 1);
      assert CellsMuted(hw.cells, b, n) == CellsMuted(hw.cells, b, n - 1)[b + n - 1 := Mute];
    }
  }

  // ------------------------------------------------------------------------------------------
  // Leases: which stream owns which range, and what the table must then contain
  // ------------------------------------------------------------------------------------------

  datatype Lease = Lease(base: nat, tracks: seq<int>)

  ghost predicate InLease(l: Lease, j: int) {
    l.base <= j < l.base + |l.tracks|
  }

  ghost predicate Covered(m: map<nat, Lease>, j: int) {
    exists k :: k in m && InLease(m[k], j)
  }

  ghost predicate Disjoint(m: map<nat, Lease>) {
    forall k, l, j :: k in m && l in m && k != l && InLease(m[k], j) ==> !InLease(m[l], j)
  }

  /** The bitmap is exactly the union of disjoint in-bounds leases, each leased word holds its
      owner's track, every other word is muted. */
  ghost predicate TableInv(used: seq<bool>, cells: seq<Cell>, m: map<nat, Lease>) {
    && |used| == |cells|
    && (forall k | k in m :: m[k].base + |m[k].tracks| <= |used|)
    && Disjoint(m)
    && (forall j | 0 <= j < |used| :: used[j] <==> Covered(m, j))
    && (forall k, j | k in m && InLease(m[k], j) :: cells[j] == CellOf(m[k].tracks[j - m[k].base]))
    && (forall j | 0 <= j < |cells| && !used[j] :: cells[j] == Mute)
  }

  lemma CoveredUpdate(m: map<nat, Lease>, k: nat, l: Lease, j: int)
    requires k !in m
    ensures Covered(m[k := l], j) <==> Covered(m, j) || InLease(l, j)
  {
    var m' := m[k := l];
    if Covered(m, j) {
      var i :| i in m && InLease(m[i], j);
      assert i in m' && m'[i] == m[i];
    }
    if InLease(l, j) {
      assert k in m' && m'[k] == l;
    }
  }

  lemma CoveredRemove(m: map<nat, Lease>, k: nat, j: int)
    requires k in m && Disjoint(m)
    ensures Covered(m - {k}, j) <==> Covered(m, j) && !InLease(m[k], j)
  {
    var m' := m - {k};
    if Covered(m, j) && !InLease(m[k], j) {
      var i :| i in m && InLease(m[i], j);
      assert i in m' && m'[i] == m[i];
    }
    if Covered(m', j) {
      var i :| i in m' && InLease(m'[i], j);
      assert i in m && m[i] == m'[i];
    }
  }

  /** Granting a fitting range to a new owner and writing its tracks keeps the table invariant. */
  lemma GrantKeeps(used: seq<bool>, cells: seq<Cell>, m: map<nat, Lease>, k: nat, b: nat, tracks: seq<int>)
    requires TableInv(used, cells, m) && k !in m && Fits(used, |tracks|, b)
    ensures TableInv(Marked(used, b, |tracks|, true), CellsSet(cells, b, tracks), m[k := Lease(b, tracks)])
  {
    var l := Lease(b, tracks);
    var m' := m[k := l];
    var used', cells' := Marked(used, b, |tracks|, true), CellsSet(cells, b, tracks);
    forall j | 0 <= j < |used| ensures used'[j] <==> Covered(m', j) {
      CoveredUpdate(m, k, l, j);
    }
    forall i, j | i in m && InLease(m[i], j) ensures !InLease(l, j) {
      assert Covered(m, j);
    }
    assert Disjoint(m');
  }

  /** Muting and unmarking an owner's range keeps the table invariant for the other owners. */
  lemma ReleaseKeeps(used: seq<bool>, cells: seq<Cell>, m: map<nat, Lease>, k: nat)
    requires TableInv(used, cells, m) && k in m
    ensures var l := m[k];
      TableInv(Marked(used, l.base, |l.tracks|, false), CellsMuted(cells, l.base, |l.tracks|), m - {k})
  {
    var l := m[k];
    var m' := m - {k};
    var used' := Marked(used, l.base, |l.tracks|, false);
    forall j | 0 <= j < |used| ensures used'[j] <==> Covered(m', j) {
      CoveredRemove(m, k, j);
      assert InLease(l, j) <==> l.base <= j < l.base + |l.tracks|;
    }
    forall i, j | i in m' && InLease(m'[i], j)
      ensures 0 <= j < |used| && !InLease(l, j)
    {
      assert i in m && m[i] == m'[i];
    }
  }

  /** Rewriting the tracks of a range of unchanged size keeps the table invariant. */
  lemma RewriteKeeps(used: seq<bool>, cells: seq<Cell>, m: map<nat, Lease>, k: nat, tracks: seq<int>)
    requires TableInv(used, cells, m) && k in m && |tracks| == |m[k].tracks|
    ensures TableInv(used, CellsSet(cells, m[k].base, tracks), m[k := Lease(m[k].base, tracks)])
  {
    var l := Lease(m[k].base, tracks);
    var m' := m[k := l];
    forall j: int ensures InLease(l, j) == InLease(m[k], j) {
    }
    forall j | 0 <= j < |used| ensures used[j] <==> Covered(m', j) {
      if Covered(m, j) {
        var i :| i in m && InLease(m[i], j);
        assert i in m' && InLease(m'[i], j);
      }
      if Covered(m', j) {
        var i :| i in m' && InLease(m'[i], j);
        assert i in m && InLease(m[i], j);
      }
    }
    forall i, j | i in m && i != k && InLease(m[i], j) ensures !InLease(l, j) {
    }
    assert Disjoint(m');
  }

  function CellsOf(tracks: seq<int>): seq<Cell> {
    seq(|tracks|, i requires 0 <= i < |tracks| => CellOf(tracks[i]))
  }

  /** Rollback cannot fail: once an owner's range is released, first fit for the same non-zero
      number of words succeeds, at a base no higher than the released one. */
  lemma RollbackFits(used: seq<bool>, cells: seq<Cell>, m: map<nat, Lease>, k: nat)
    requires TableInv(used, cells, m) && k in m
    ensures var l := m[k];
            var r := FirstFit(Marked(used, l.base, |l.tracks|, false), |l.tracks|);
            && (|l.tracks| > 0 ==> r.Some? && r.value <= l.base)
            && (r.None? <==> |l.tracks| == 0 && forall j | 0 <= j < |used| :: used[j])
  {
    var l := m[k];
    var used' := Marked(used, l.base, |l.tracks|, false);
    if |l.tracks| > 0 {
      assert Fits(used', |l.tracks|, l.base);
      assert InLease(l, l.base);
    } else {
      assert used' == used;
      forall j | 0 <= j < |used| && !used[j] ensures FirstFit(used, 0).Some? {
        assert Fits(used, 0, j);
      }
    }
  }

  // ------------------------------------------------------------------------------------------
  // Room, in terms of the leases
  // ------------------------------------------------------------------------------------------

  /** The `n` words from `b` on lie in a table of `size` words and belong to nobody; an empty range still
      begins at a free word. */
  ghost predicate RoomAt(m: map<nat, Lease>, size: nat, n: nat, b: nat) {
    b < size && b + n <= size && forall j | j == b || b <= j < b + n :: !Covered(m, j)
  }

  ghost predicate Room(m: map<nat, Lease>, size: nat, n: nat) {
    exists b :: RoomAt(m, size, n, b)
  }

  /** The lowest place with room. */
  ghost predicate LowestRoom(m: map<nat, Lease>, size: nat, n: nat, b: nat) {
    RoomAt(m, size, n, b) && forall c: nat | c < b :: !RoomAt(m, size, n, c)
  }

  /** A place is the lowest one with room, or there is none. */
  ghost predicate Placed(m: map<nat, Lease>, size: nat, n: nat, r: Option<nat>) {
    match r
    case Some(b) => LowestRoom(m, size, n, b)
    case None => !Room(m, size, n)
  }

  lemma RoomIsFit(used: seq<bool>, cells: seq<Cell>, m: map<nat, Lease>, n: nat, b: nat)
    requires TableInv(used, cells, m)
    ensures Fits(used, n, b) <==> RoomAt(m, |used|, n, b)
  {
  }

  /** First fit finds the lowest place with room, or there is none. */
  lemma FirstFitIsLowest(used: seq<bool>, cells: seq<Cell>, m: map<nat, Lease>, n: nat)
    requires TableInv(used, cells, m)
    ensures Placed(m, |used|, n, FirstFit(used, n))
  {
    forall b: nat ensures Fits(used, n, b) <==> RoomAt(m, |used|, n, b) {
      RoomIsFit(used, cells, m, n, b);
    }
  }

  /** The same once the range of `k` is released. */
  lemma ReleasedFitIsLowest(used: seq<bool>, cells: seq<Cell>, m: map<nat, Lease>, k: nat, n: nat)
    requires TableInv(used, cells, m) && k in m
    ensures Placed(m - {k}, |used|, n, FirstFit(Marked(used, m[k].base, |m[k].tracks|, false), n))
  {
    ReleaseKeeps(used, cells, m, k);
    FirstFitIsLowest(Marked(used, m[k].base, |m[k].tracks|, false), CellsMuted(cells, m[k].base, |m[k].tracks|),
                     m - {k}, n);
  }
}
