/**
 What the hardware sees through the stream records of one direction.

 A valid record has a window of track-table words, from its base on, one per channel.  The stream
 manager changes words and records one write at a time while the hardware keeps reading, so the
 results here are about every single write: a record shows only tracks of its own stream, and
 a command leaves the records and words of all other streams alone.
 */
module Windows {
  import opened TrackTable
  import opened StreamCommon
  import opened TrackClaims

  /** A record of the stream table; `details` is what the two directions do not share. */
  datatype StreamRecord<D> = StreamRecord(details: D, numChannels: nat, base: nat, valid: bool, active: bool)

  type Hw<D> = Hardware<StreamRecord<D>>

  type Writes<D> = seq<Write<StreamRecord<D>>>

  ghost predicate InWindow<D>(r: StreamRecord<D>, j: int) {
    r.base <= j < r.base + r.numChannels
  }

  /** The valid record `k` routes a channel to track `t`. */
  ghost predicate Exposes<D>(hw: Hw<D>, k: nat, t: int) {
    && k < |hw.records| && hw.records[k].valid
    && exists j :: 0 <= j < |hw.cells| && InWindow(hw.records[k], j) && hw.cells[j] == CellOf(t) && t >= 0
  }

  /** No track is exposed by two records. */
  ghost predicate Isolated<D>(hw: Hw<D>) {
    forall k, l, t :: k != l && Exposes(hw, k, t) ==> !Exposes(hw, l, t)
  }

  /** Every exposed track belongs to its record in `own`. */
  ghost predicate Guarded<D>(hw: Hw<D>, own: map<nat, Lease>) {
    forall k, t :: Exposes(hw, k, t) ==> k in own && Routes(own[k], t)
  }

  lemma GuardedIsIsolated<D>(hw: Hw<D>, own: map<nat, Lease>)
    requires Guarded(hw, own) && Exclusive(own)
    ensures Isolated(hw)
  {
  }

  /** Guarded before the first and after every single write. */
  ghost predicate GuardedAlong<D>(hw: Hw<D>, ws: Writes<D>, own: map<nat, Lease>) {
    forall p | 0 <= p <= |ws| :: Guarded(ApplyAll(hw, ws[..p]), own)
  }

  /** Isolation before the first and after every single write. */
  ghost predicate IsolatedAlong<D>(hw: Hw<D>, ws: Writes<D>) {
    forall p | 0 <= p <= |ws| :: Isolated(ApplyAll(hw, ws[..p]))
  }

  lemma GuardedAlongIsIsolated<D>(hw: Hw<D>, ws: Writes<D>, own: map<nat, Lease>)
    requires GuardedAlong(hw, ws, own) && Exclusive(own)
    ensures IsolatedAlong(hw, ws)
  {
    forall p | 0 <= p <= |ws| ensures Isolated(ApplyAll(hw, ws[..p])) {
      GuardedIsIsolated(ApplyAll(hw, ws[..p]), own);
    }
  }

  /** A prefix of a concatenation ends in the first part or in the second. */
  lemma PrefixOfConcat<R>(hw: Hardware<R>, a: seq<Write<R>>, b: seq<Write<R>>, p: nat)
    requires p <= |a + b|
    ensures p <= |a| ==> ApplyAll(hw, (a + b)[..p]) == ApplyAll(hw, a[..p])
    ensures p > |a| ==> ApplyAll(hw, (a + b)[..p]) == ApplyAll(ApplyAll(hw, a), b[..p - |a|])
  {
    if p <= |a| {
      assert (a + b)[..p] == a[..p];
    } else {
      assert (a + b)[..p] == a + b[..p - |a|];
      ApplyAllConcat(hw, a, b[..p - |a|]);
    }
  }

  lemma AlongConcat<D>(hw: Hw<D>, a: Writes<D>, b: Writes<D>, own: map<nat, Lease>)
    requires GuardedAlong(hw, a, own) && GuardedAlong(ApplyAll(hw, a), b, own)
    ensures GuardedAlong(hw, a + b, own)
  {
    forall p | 0 <= p <= |a + b| ensures Guarded(ApplyAll(hw, (a + b)[..p]), own) {
      PrefixOfConcat(hw, a, b, p);
    }
  }

  lemma IsolatedConcat<D>(hw: Hw<D>, a: Writes<D>, b: Writes<D>)
    requires IsolatedAlong(hw, a) && IsolatedAlong(ApplyAll(hw, a), b)
    ensures IsolatedAlong(hw, a + b)
  {
    forall p | 0 <= p <= |a + b| ensures Isolated(ApplyAll(hw, (a + b)[..p])) {
      PrefixOfConcat(hw, a, b, p);
    }
  }

  lemma EndsGuarded<D>(hw: Hw<D>, ws: Writes<D>, own: map<nat, Lease>)
    requires GuardedAlong(hw, ws, own)
    ensures Guarded(ApplyAll(hw, ws), own)
  {
    assert ws[..|ws|] == ws;
  }

  /** Everything `m` routes is routed by `own`, under the same index. */
  ghost predicate Owns(own: map<nat, Lease>, m: map<nat, Lease>) {
    forall k | k in m :: k in own && forall t | t in m[k].tracks :: t in own[k].tracks
  }

  lemma GuardWeakens<D>(hw: Hw<D>, own: map<nat, Lease>, own': map<nat, Lease>)
    requires Guarded(hw, own) && Owns(own', own)
    ensures Guarded(hw, own')
  {
  }

  lemma AlongWeakens<D>(hw: Hw<D>, ws: Writes<D>, own: map<nat, Lease>, own': map<nat, Lease>)
    requires GuardedAlong(hw, ws, own) && Owns(own', own)
    ensures GuardedAlong(hw, ws, own')
  {
    forall p | 0 <= p <= |ws| ensures Guarded(ApplyAll(hw, ws[..p]), own') {
      GuardWeakens(ApplyAll(hw, ws[..p]), own, own');
    }
  }

  // ------------------------------------------------------------------------------------------
  // The three kinds of phases
  // ------------------------------------------------------------------------------------------

  lemma MutingGuards<D>(hw: Hw<D>, b: nat, n: nat, own: map<nat, Lease>)
    requires Guarded(hw, own) && b + n <= |hw.cells|
    ensures GuardedAlong(hw, FreeWrites(b, n), own)
  {
    forall p | 0 <= p <= n ensures Guarded(ApplyAll(hw, FreeWrites(b, n)[..p]), own) {
      assert FreeWrites<StreamRecord<D>>(b, n)[..p] == FreeWrites(b, p);
      FreeWritesEffect(hw, b, p);
      MutedIsGuarded(hw, b, p, own);
    }
  }

  lemma MutedIsGuarded<D>(hw: Hw<D>, b: nat, n: nat, own: map<nat, Lease>)
    requires Guarded(hw, own)
    ensures Guarded(hw.(cells := CellsMuted(hw.cells, b, n)), own)
  {
    var hw' := hw.(cells := CellsMuted(hw.cells, b, n));
    forall k: nat, t | Exposes(hw', k, t) ensures k in own && Routes(own[k], t) {
      var j :| 0 <= j < |hw'.cells| && InWindow(hw'.records[k], j) && hw'.cells[j] == CellOf(t) && t >= 0;
      assert hw.cells[j] == hw'.cells[j];
      assert Exposes(hw, k, t);
    }
  }

  /** Only the record `k` may look at the words being written. */
  ghost predicate Reserved<D>(records: seq<StreamRecord<D>>, b: nat, n: nat, k: nat) {
    forall l, j | 0 <= l < |records| && l != k && records[l].valid && InWindow(records[l], j) :: !(b <= j < b + n)
  }

  lemma SettingGuards<D>(hw: Hw<D>, b: nat, tracks: seq<int>, k: nat, own: map<nat, Lease>)
    requires Guarded(hw, own) && b + |tracks| <= |hw.cells|
    requires Reserved(hw.records, b, |tracks|, k) && k in own
    requires forall t | t in tracks :: t in own[k].tracks
    ensures GuardedAlong(hw, SetWrites(b, tracks), own)
  {
    forall p | 0 <= p <= |tracks| ensures Guarded(ApplyAll(hw, SetWrites(b, tracks)[..p]), own) {
      assert SetWrites<StreamRecord<D>>(b, tracks)[..p] == SetWrites(b, tracks[..p]);
      SetWritesEffect(hw, b, tracks[..p]);
      SetIsGuarded(hw, b, tracks[..p], k, own);
    }
  }

  lemma SetIsGuarded<D>(hw: Hw<D>, b: nat, tracks: seq<int>, k: nat, own: map<nat, Lease>)
    requires Guarded(hw, own) && k in own && Reserved(hw.records, b, |tracks|, k)
    requires forall t | t in tracks :: t in own[k].tracks
    ensures Guarded(hw.(cells := CellsSet(hw.cells, b, tracks)), own)
  {
    var hw' := hw.(cells := CellsSet(hw.cells, b, tracks));
    forall l: nat, t | Exposes(hw', l, t) ensures l in own && Routes(own[l], t) {
      var j :| 0 <= j < |hw'.cells| && InWindow(hw'.records[l], j) && hw'.cells[j] == CellOf(t) && t >= 0;
      if b <= j < b + |tracks| {
        assert l == k && tracks[j - b] == t;
      } else {
        assert hw.cells[j] == hw'.cells[j];
        assert Exposes(hw, l, t);
      }
    }
  }

  /** Writes of record `k` only, where a valid one looks at no words but the `n` from `b` on. */
  ghost predicate RecordsOnly<D>(ws: Writes<D>, k: nat, b: nat, n: nat) {
    forall i | 0 <= i < |ws| :: ws[i].RecordWrite? && ws[i].index == k && Within(ws[i].record, b, n)
  }

  ghost predicate Within<D>(r: StreamRecord<D>, b: nat, n: nat) {
    r.valid ==> forall j | InWindow(r, j) :: b <= j < b + n
  }

  lemma RecordIsGuarded<D>(hw: Hw<D>, k: nat, r: StreamRecord<D>, l: Lease, own: map<nat, Lease>)
    requires Guarded(hw, own) && k < |hw.records| && k in own && Within(r, l.base, |l.tracks|)
    requires Holds(hw.cells, l) && forall t | t in l.tracks :: t in own[k].tracks
    ensures Guarded(Apply(hw, RecordWrite(k, r)), own)
  {
    var hw' := Apply(hw, RecordWrite(k, r));
    forall i: nat, t | Exposes(hw', i, t) ensures i in own && Routes(own[i], t) {
      var j :| 0 <= j < |hw'.cells| && InWindow(hw'.records[i], j) && hw'.cells[j] == CellOf(t) && t >= 0;
      if i == k {
        assert InLease(l, j) && l.tracks[j - l.base] == t;
      } else {
        assert hw.records[i] == hw'.records[i];
        assert Exposes(hw, i, t);
      }
    }
  }

  /** The words of the lease hold its tracks. */
  ghost predicate Holds(cells: seq<Cell>, l: Lease) {
    l.base + |l.tracks| <= |cells| && forall j | InLease(l, j) :: cells[j] == CellOf(l.tracks[j - l.base])
  }

  lemma {:induction false} RecordsGuard<D>(hw: Hw<D>, ws: Writes<D>, k: nat, l: Lease, own: map<nat, Lease>, p: nat)
    requires Guarded(hw, own) && k < |hw.records| && k in own && RecordsOnly(ws, k, l.base, |l.tracks|)
    requires Holds(hw.cells, l) && forall t | t in l.tracks :: t in own[k].tracks
    requires p <= |ws|
    ensures ApplyAll(hw, ws[..p]).cells == hw.cells && Guarded(ApplyAll(hw, ws[..p]), own)
  {
    if p > 0 {
      RecordsGuard(hw, ws, k, l, own, p - 1);
      assert ws[..p][..p - 1] == ws[..p - 1];
      RecordIsGuarded(ApplyAll(hw, ws[..p - 1]), k, ws[p - 1].record, l, own);
    }
  }

  // ------------------------------------------------------------------------------------------
  // Placing a stream
  // ------------------------------------------------------------------------------------------

  /** The 8-bit count and the 16-bit base of a record describe the range: the base fits, or the
      record counts no channels. */
  predicate Readable(l: Lease) {
    l.base < 0x1_0000 || |l.tracks| % 0x100 == 0
  }

  ghost predicate AllReadable(m: map<nat, Lease>) {
    forall k | k in m :: Readable(m[k])
  }

  /** The range of a record filled for the lease. */
  predicate Points<D>(r: StreamRecord<D>, l: Lease) {
    r.base == l.base % 0x1_0000 && r.numChannels == |l.tracks| % 0x100
  }

  lemma WindowInLease<D>(r: StreamRecord<D>, l: Lease, j: int)
    requires Points(r, l) && Readable(l) && InWindow(r, j)
    ensures InLease(l, j)
  {
  }

  /** In a table of at most 65536 words every range can be described. */
  lemma SmallIsReadable(used: seq<bool>, cells: seq<Cell>, m: map<nat, Lease>)
    requires TableInv(used, cells, m) && |cells| <= 0x1_0000
    ensures AllReadable(m)
  {
    forall k | k in m ensures Readable(m[k]) {
      assert m[k].base + |m[k].tracks| <= |cells|;
    }
  }

  /** Each valid record looks only at words of its own lease. */
  ghost predicate Framed<D>(records: seq<StreamRecord<D>>, m: map<nat, Lease>) {
    forall k, j | 0 <= k < |records| && records[k].valid && InWindow(records[k], j) :: k in m && InLease(m[k], j)
  }

  /** Records are valid exactly for the leases, and point to them. */
  ghost predicate PointTo<D>(records: seq<StreamRecord<D>>, m: map<nat, Lease>) {
    && (forall k | 0 <= k < |records| && records[k].valid :: k in m)
    && (forall k | k in m :: k < |records| && Points(records[k], m[k]))
  }

  lemma ReadableIsFramed<D>(records: seq<StreamRecord<D>>, m: map<nat, Lease>)
    requires PointTo(records, m) && AllReadable(m)
    ensures Framed(records, m)
  {
    forall k, j | 0 <= k < |records| && records[k].valid && InWindow(records[k], j) ensures k in m && InLease(m[k], j) {
      WindowInLease(records[k], m[k], j);
    }
  }

  /** Between commands every valid record shows only its own stream's tracks. */
  lemma LeasedIsGuarded<D>(used: seq<bool>, hw: Hw<D>, m: map<nat, Lease>, own: map<nat, Lease>)
    requires TableInv(used, hw.cells, m) && Framed(hw.records, m) && Owns(own, m)
    ensures Guarded(hw, own)
  {
    forall k: nat, t | Exposes(hw, k, t) ensures k in own && Routes(own[k], t) {
      var j :| 0 <= j < |hw.cells| && InWindow(hw.records[k], j) && hw.cells[j] == CellOf(t) && t >= 0;
      assert InLease(m[k], j);
      assert hw.cells[j] == CellOf(m[k].tracks[j - m[k].base]);
      assert m[k].tracks[j - m[k].base] == t;
    }
  }

  /** How a command places lease `l` for index `k`: a new stream in a range that fits; a stream moved,
      its words muted, to a range that fits once its own is released; a stream rewritten in place. */
  ghost predicate Places<R>(used: seq<bool>, m: map<nat, Lease>, k: nat, l: Lease, pre: seq<Write<R>>) {
    if k !in m then pre == [] && Fits(used, |l.tracks|, l.base)
    else
      || Moves(used, m[k], l, pre)
      || (pre == [] && l.base == m[k].base && |l.tracks| == |m[k].tracks|)
  }

  ghost predicate Moves<R>(used: seq<bool>, old_: Lease, l: Lease, pre: seq<Write<R>>) {
    && pre == FreeWrites(old_.base, |old_.tracks|)
    && Fits(Marked(used, old_.base, |old_.tracks|, false), |l.tracks|, l.base)
  }

  /** The new range does not meet the range of any other stream. */
  ghost predicate Apart(m: map<nat, Lease>, k: nat, l: Lease) {
    forall i, j | i in m && i != k && InLease(m[i], j) :: !InLease(l, j)
  }

  lemma PlacesApart<R>(used: seq<bool>, cells: seq<Cell>, m: map<nat, Lease>, k: nat, l: Lease, pre: seq<Write<R>>)
    requires TableInv(used, cells, m) && Places(used, m, k, l, pre)
    ensures Apart(m, k, l) && l.base + |l.tracks| <= |cells|
  {
    forall i, j | i in m && i != k && InLease(m[i], j) ensures !InLease(l, j) {
      assert Covered(m, j) && used[j];
    }
    assert k in m ==> m[k].base + |m[k].tracks| <= |used|;
  }

  lemma ApartIsReserved<D>(records: seq<StreamRecord<D>>, m: map<nat, Lease>, k: nat, l: Lease)
    requires Framed(records, m) && Apart(m, k, l)
    ensures Reserved(records, l.base, |l.tracks|, k)
  {
    forall i, j | 0 <= i < |records| && i != k && records[i].valid && InWindow(records[i], j)
      ensures !(l.base <= j < l.base + |l.tracks|)
    {
      assert InLease(m[i], j) && !InLease(l, j);
    }
  }

  /** The first phase, if there is one, mutes the old range. */
  lemma PreGuards<D>(used: seq<bool>, hw: Hw<D>, m: map<nat, Lease>, k: nat, l: Lease, pre: Writes<D>,
                     own: map<nat, Lease>)
    requires TableInv(used, hw.cells, m) && Places(used, m, k, l, pre) && Guarded(hw, own)
    ensures GuardedAlong(hw, pre, own) && ApplyAll(hw, pre).records == hw.records
  {
    if pre != [] {
      MutingGuards(hw, m[k].base, |m[k].tracks|, own);
      FreeWritesEffect(hw, m[k].base, |m[k].tracks|);
    }
  }

  /** Writing tracks and record over a guarded intermediate table keeps every step guarded. */
  lemma InstallGuards<D>(hw: Hw<D>, k: nat, l: Lease, recs: Writes<D>, own: map<nat, Lease>)
    requires Guarded(hw, own) && k < |hw.records| && k in own && l.base + |l.tracks| <= |hw.cells|
    requires Reserved(hw.records, l.base, |l.tracks|, k) && RecordsOnly(recs, k, l.base, |l.tracks|)
    requires forall t | t in l.tracks :: t in own[k].tracks
    ensures GuardedAlong(hw, SetWrites(l.base, l.tracks) + recs, own)
  {
    SettingGuards(hw, l.base, l.tracks, k, own);
    EndsGuarded(hw, SetWrites(l.base, l.tracks), own);
    SetWritesEffect(hw, l.base, l.tracks);
    var h := ApplyAll(hw, SetWrites(l.base, l.tracks));
    forall p | 0 <= p <= |recs| ensures Guarded(ApplyAll(h, recs[..p]), own) {
      RecordsGuard(h, recs, k, l, own, p);
    }
    AlongConcat(hw, SetWrites(l.base, l.tracks), recs, own);
  }

  /** However a stream is placed, after every write each record shows only tracks of its owner. */
  lemma PlacingGuards<D>(used: seq<bool>, hw: Hw<D>, m: map<nat, Lease>, k: nat, l: Lease, pre: Writes<D>,
                         recs: Writes<D>, own: map<nat, Lease>)
    requires TableInv(used, hw.cells, m) && Framed(hw.records, m) && Owns(own, m)
    requires Places(used, m, k, l, pre) && k < |hw.records| && RecordsOnly(recs, k, l.base, |l.tracks|)
    requires k in own && forall t | t in l.tracks :: t in own[k].tracks
    ensures GuardedAlong(hw, pre + SetWrites(l.base, l.tracks) + recs, own)
  {
    PlacesApart(used, hw.cells, m, k, l, pre);
    ApartIsReserved(hw.records, m, k, l);
    LeasedIsGuarded(used, hw, m, own);
    PreGuards(used, hw, m, k, l, pre, own);
    EndsGuarded(hw, pre, own);
    InstallGuards(ApplyAll(hw, pre), k, l, recs, own);
    AlongConcat(hw, pre, SetWrites(l.base, l.tracks) + recs, own);
    assert pre + SetWrites(l.base, l.tracks) + recs == pre + (SetWrites(l.base, l.tracks) + recs);
  }

  /** Muting the range of a stream and then making its record invalid. */
  lemma ReleasingGuards<D>(used: seq<bool>, hw: Hw<D>, m: map<nat, Lease>, k: nat, dead: StreamRecord<D>,
                           own: map<nat, Lease>)
    requires TableInv(used, hw.cells, m) && Framed(hw.records, m) && Owns(own, m)
    requires k in m && k < |hw.records| && !dead.valid
    ensures GuardedAlong(hw, FreeWrites(m[k].base, |m[k].tracks|) + [RecordWrite(k, dead)], own)
  {
    var free, del := FreeWrites(m[k].base, |m[k].tracks|), [RecordWrite(k, dead)];
    LeasedIsGuarded(used, hw, m, own);
    MutingGuards(hw, m[k].base, |m[k].tracks|, own);
    EndsGuarded(hw, free, own);
    var h := ApplyAll(hw, free);
    forall p | 0 <= p <= |del| ensures Guarded(ApplyAll(h, del[..p]), own) {
      RecordsGuard(h, del, k, Lease(0, []), own, p);
    }
    AlongConcat(hw, free, del, own);
  }

  /** What a command on one index does to streams and tables: nothing, placing an element after the
      writes `pre`, or dropping a stream. */
  datatype Change<S, R> = Idle | Put(index: nat, elem: Entry<S>, pre: seq<Write<R>>) | Drop(index: nat)

  /** The index whose stream may change. */
  predicate Changes<S, R>(c: Change<S, R>, k: nat) {
    !c.Idle? && c.index == k
  }

  // ------------------------------------------------------------------------------------------
  // Old and new tracks together
  // ------------------------------------------------------------------------------------------

  function TracksOf(m: map<nat, Lease>, k: nat): seq<int> {
    if k in m then m[k].tracks else []
  }

  /** The tracks each index routes before or after a command. */
  function Either(m: map<nat, Lease>, m': map<nat, Lease>): map<nat, Lease> {
    map k | k in m.Keys + m'.Keys :: Lease(0, TracksOf(m, k) + TracksOf(m', k))
  }

  lemma EitherOwns(m: map<nat, Lease>, m': map<nat, Lease>)
    ensures Owns(Either(m, m'), m) && Owns(Either(m, m'), m')
  {
  }

  /** If only index `k` changes and nothing is routed twice before and after, then nothing is routed
      twice even if old and new tracks are taken together. */
  lemma EitherExclusive(m: map<nat, Lease>, m': map<nat, Lease>, k: nat)
    requires Exclusive(m) && Exclusive(m') && m - {k} == m' - {k}
    ensures Exclusive(Either(m, m'))
  {
    var own := Either(m, m');
    forall i, l, t | i in own && l in own && i != l && Routes(own[i], t) ensures !Routes(own[l], t) {
      EitherRoutes(m, m', i, t);
      EitherRoutes(m, m', l, t);
      SameElsewhere(m, m', k, i);
      SameElsewhere(m, m', k, l);
    }
  }

  lemma EitherRoutes(m: map<nat, Lease>, m': map<nat, Lease>, k: nat, t: int)
    requires k in Either(m, m')
    ensures Routes(Either(m, m')[k], t) <==> (k in m && Routes(m[k], t)) || (k in m' && Routes(m'[k], t))
  {
  }

  lemma SameElsewhere(m: map<nat, Lease>, m': map<nat, Lease>, k: nat, i: nat)
    requires m - {k} == m' - {k}
    ensures i != k ==> (i in m <==> i in m') && (i in m ==> m[i] == m'[i])
  {
    if i != k && (i in m || i in m') {
      assert i in m - {k} && i in m' - {k};
      assert (m - {k})[i] == m[i] && (m' - {k})[i] == m'[i];
    }
  }

  // ------------------------------------------------------------------------------------------
  // Bystanders
  // ------------------------------------------------------------------------------------------

  /** No write touches record `i` or a word of lease `l`. */
  ghost predicate Spares<R>(ws: seq<Write<R>>, i: nat, l: Lease) {
    forall w | 0 <= w < |ws| :: SparedBy(ws[w], i, l)
  }

  ghost predicate SparedBy<R>(w: Write<R>, i: nat, l: Lease) {
    match w
    case CellWrite(j, _) => !InLease(l, j)
    case RecordWrite(j, _) => j != i
  }

  lemma {:induction false} SparedAlong<R>(hw: Hardware<R>, ws: seq<Write<R>>, i: nat, l: Lease, p: nat)
    requires Spares(ws, i, l) && p <= |ws| && i < |hw.records| && l.base + |l.tracks| <= |hw.cells|
    ensures var h := ApplyAll(hw, ws[..p]);
            h.records[i] == hw.records[i] && forall j | InLease(l, j) :: h.cells[j] == hw.cells[j]
  {
    if p > 0 {
      SparedAlong(hw, ws, i, l, p - 1);
      assert ws[..p][..p - 1] == ws[..p - 1];
      assert SparedBy(ws[p - 1], i, l);
    }
  }

  lemma SparesConcat<R>(a: seq<Write<R>>, b: seq<Write<R>>, i: nat, l: Lease)
    requires Spares(a, i, l) && Spares(b, i, l)
    ensures Spares(a + b, i, l)
  {
  }

  /** Placing a stream spares the words of every other one. */
  lemma PlacingSpares<R>(used: seq<bool>, cells: seq<Cell>, m: map<nat, Lease>, k: nat, l: Lease, pre: seq<Write<R>>,
                         i: nat)
    requires TableInv(used, cells, m) && Places(used, m, k, l, pre) && i in m && i != k
    ensures Spares(pre + SetWrites(l.base, l.tracks), i, m[i])
  {
    PlacesApart(used, cells, m, k, l, pre);
    SettingSpares<R>(l, i, m[i]);
    if pre != [] {
      MutingSpares<R>(m[k], i, m[i]);
    }
    SparesConcat(pre, SetWrites(l.base, l.tracks), i, m[i]);
  }

  lemma SettingSpares<R>(l: Lease, i: nat, other: Lease)
    requires forall j | InLease(other, j) :: !InLease(l, j)
    ensures Spares(SetWrites<R>(l.base, l.tracks), i, other)
  {
    forall w | 0 <= w < |l.tracks| ensures SparedBy(SetWrites<R>(l.base, l.tracks)[w], i, other) {
      assert InLease(l, l.base + w);
    }
  }

  lemma MutingSpares<R>(l: Lease, i: nat, other: Lease)
    requires forall j | InLease(other, j) :: !InLease(l, j)
    ensures Spares(FreeWrites<R>(l.base, |l.tracks|), i, other)
  {
    forall w | 0 <= w < |l.tracks| ensures SparedBy(FreeWrites<R>(l.base, |l.tracks|)[w], i, other) {
      assert InLease(l, l.base + w);
    }
  }

  // ------------------------------------------------------------------------------------------
  // Which records are ever valid
  // ------------------------------------------------------------------------------------------

  /** Record writes are for index `k` only, and the only valid record among them is `r`. */
  ghost predicate Lays<D>(ws: Writes<D>, k: nat, r: StreamRecord<D>) {
    forall i | 0 <= i < |ws| && ws[i].RecordWrite? :: ws[i].index == k && (ws[i].record.valid ==> ws[i].record == r)
  }

  lemma PlacesCells<R>(used: seq<bool>, m: map<nat, Lease>, k: nat, l: Lease, pre: seq<Write<R>>)
    requires Places(used, m, k, l, pre)
    ensures forall i | 0 <= i < |pre| :: pre[i].CellWrite?
  {
  }

  lemma {:induction false} LaidAlong<D>(hw: Hw<D>, ws: Writes<D>, k: nat, r: StreamRecord<D>, i: nat, p: nat)
    requires Lays(ws, k, r) && p <= |ws| && i < |hw.records|
    ensures var x := ApplyAll(hw, ws[..p]).records[i];
            x == hw.records[i] || (i == k && (x.valid ==> x == r))
  {
    if p > 0 {
      LaidAlong(hw, ws, k, r, i, p - 1);
      assert ws[..p][..p - 1] == ws[..p - 1];
    }
  }

  /** The write makes a record valid. */
  predicate Validates<D>(hw: Hw<D>, w: Write<StreamRecord<D>>) {
    w.RecordWrite? && w.record.valid && w.index < |hw.records|
  }

  lemma JustWritten<D>(hw: Hw<D>, ws: Writes<D>, w: nat, k: nat)
    requires 0 < w <= |ws| && k < |hw.records| && ws[w - 1].RecordWrite? && ws[w - 1].index == k
    ensures ApplyAll(hw, ws[..w]).records[k] == ws[w - 1].record
  {
    assert ws[..w][..w - 1] == ws[..w - 1];
  }

  lemma {:induction false} CellsOnly<D>(hw: Hw<D>, ws: Writes<D>, w: nat)
    requires w <= |ws| && forall i | 0 <= i < w :: ws[i].CellWrite?
    ensures ApplyAll(hw, ws[..w]).records == hw.records
  {
    if w > 0 {
      CellsOnly(hw, ws, w - 1);
      assert ws[..w][..w - 1] == ws[..w - 1];
    }
  }

  /** No valid record is written. */
  ghost predicate Invalidates<D>(ws: Writes<D>) {
    forall i | 0 <= i < |ws| && ws[i].RecordWrite? :: !ws[i].record.valid
  }

  lemma {:induction false} InvalidAlong<D>(hw: Hw<D>, ws: Writes<D>, i: nat, p: nat)
    requires Invalidates(ws) && p <= |ws| && i < |hw.records|
    ensures var x := ApplyAll(hw, ws[..p]).records[i]; x.valid ==> x == hw.records[i]
  {
    if p > 0 {
      InvalidAlong(hw, ws, i, p - 1);
      assert ws[..p][..p - 1] == ws[..p - 1];
    }
  }

  // ------------------------------------------------------------------------------------------
  // Routing
  // ------------------------------------------------------------------------------------------

  /** The track-table words the hardware reads for a record, channel by channel. */
  function Routing<D>(cells: seq<Cell>, r: StreamRecord<D>): seq<Cell> {
    if r.base + r.numChannels <= |cells| then cells[r.base..r.base + r.numChannels] else []
  }

  /** The cells of the channels, as many as the 8-bit count of the record says. */
  function Wanted(tracks: seq<int>): seq<Cell> {
    CellsOf(tracks)[..|tracks| % 0x100]
  }

  /** What the hardware reads through a record that points to a lease is what the lease holds. */
  lemma RoutingIsWanted<D>(cells: seq<Cell>, r: StreamRecord<D>, l: Lease)
    requires Points(r, l) && Readable(l) && Holds(cells, l)
    ensures Routing(cells, r) == Wanted(l.tracks)
  {
    if r.numChannels > 0 {
      assert r.base == l.base && r.numChannels <= |l.tracks|;
      forall i | 0 <= i < r.numChannels ensures cells[l.base + i] == CellOf(l.tracks[i]) {
        assert InLease(l, l.base + i);
      }
    }
  }

  /** Writes that spare a record and its words do not change what is read through it. */
  lemma SparedRouting<D>(hw: Hw<D>, ws: Writes<D>, i: nat, l: Lease, p: nat)
    requires i < |hw.records| && Points(hw.records[i], l) && Readable(l) && Holds(hw.cells, l)
    requires Spares(ws, i, l) && p <= |ws|
    ensures var h := ApplyAll(hw, ws[..p]);
            h.records[i] == hw.records[i] && Routing(h.cells, h.records[i]) == Wanted(l.tracks)
  {
    SparedAlong(hw, ws, i, l, p);
    RoutingIsWanted(ApplyAll(hw, ws[..p]).cells, hw.records[i], l);
  }

  lemma LeaseHolds(used: seq<bool>, cells: seq<Cell>, m: map<nat, Lease>, k: nat)
    requires TableInv(used, cells, m) && k in m
    ensures Holds(cells, m[k])
  {
  }

  ghost predicate SameRoute<D>(hw: Hw<D>, r: StreamRecord<D>, hw': Hw<D>, r': StreamRecord<D>) {
    Routing(hw'.cells, r') == Routing(hw.cells, r) && r' == r.(base := r'.base)
  }

  /** Same valid records, routing the same, and differing at most in the base. */
  ghost predicate SameRouting<D>(hw: Hw<D>, hw': Hw<D>) {
    && |hw'.records| == |hw.records|
    && (forall k | 0 <= k < |hw.records| :: hw'.records[k].valid == hw.records[k].valid)
    && (forall k | 0 <= k < |hw.records| && hw.records[k].valid :: SameRoute(hw, hw.records[k], hw', hw'.records[k]))
  }
}
