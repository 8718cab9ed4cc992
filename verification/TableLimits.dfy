/**
 Facts about nearly full tables, and about records whose 16-bit base does not hold the base of their
 range, shared by the limits of both directions.
 */
module TableLimits {
  import opened Options
  import opened TrackTable
  import opened StreamCommon
  import opened Windows

  /** The requests of one handle that add the first `k` of the given streams. */
  function Adds<S>(stream: nat -> S, k: nat): (reqs: seq<StreamRequest<S>>)
    ensures |reqs| == k
  {
    if k == 0 then [] else Adds(stream, k - 1) + [Request(0, Add(stream(k - 1)))]
  }

  /** How many ranges of 128 words leave between 1 and 128 words of a large table. */
  lemma FillCount(n: nat) returns (k: nat)
    requires n > 0x1_0000
    ensures 2 < k && 0x1_0000 <= 128 * k < n <= 128 * k + 128
  {
    k := (n - 1) / 128;
  }

  lemma NextIndex<S>(streams: map<nat, Entry<S>>, k: nat, max: nat)
    requires k < max && forall i: nat :: i in streams <==> i < k
    ensures LeastFree(streams, 0, max) == Some(k)
  {
    assert k !in streams;
  }

  lemma NextBase(used: seq<bool>, m: nat, n: nat)
    requires 0 < n && m + n <= |used| && forall j | 0 <= j < |used| :: used[j] <==> j < m
    ensures FirstFit(used, n) == Some(m)
  {
    FirstFitUnique(used, n, m);
  }

  /** A hole of 128 words, and at most 128 at the end, have no room for 256; the first word free is the
      first of the hole. */
  lemma NoRoom(used: seq<bool>, k: nat)
    requires 2 < k && 128 * k < |used| <= 128 * k + 128
    requires forall j | 0 <= j < |used| :: used[j] <==> j < 128 * k && !(128 <= j < 256)
    ensures FirstFit(used, 256).None? && FirstFit(used, 1) == Some(128)
  {
    assert used[256];
    forall c: nat ensures !Fits(used, 256, c) {
    }
    FirstFitUnique(used, 1, 128);
  }

  /** If only one lease routes a track, and once, the track is only in that word. */
  lemma OneWord(used: seq<bool>, cells: seq<Cell>, m: map<nat, Lease>, k: nat, t: nat, j: nat)
    requires TableInv(used, cells, m) && k in m && m[k].tracks == [t] && j < |cells| && j != m[k].base
    requires forall i | i in m && i != k :: t !in m[i].tracks
    ensures cells[j] != Track(t)
  {
    if used[j] {
      assert Covered(m, j);
      var i :| i in m && InLease(m[i], j);
      assert cells[j] == CellOf(m[i].tracks[j - m[i].base]);
    }
  }

  /** A record with a truncated base reads a word of the wrong range. */
  lemma TruncatedReads<D>(cells: seq<Cell>, r: StreamRecord<D>, b: nat, t: nat)
    requires Points(r, Lease(b, [t])) && b % 0x1_0000 < |cells|
    ensures Routing(cells, r) == [cells[b % 0x1_0000]] && Wanted([t]) == [Track(t)]
  {
    assert CellsOf([t]) == [Track(t)];
  }

  /** If the range moves to where its record can describe it, what is read changes. */
  lemma RoutingMoves<D>(hw: Hw<D>, hw': Hw<D>, k: nat, b: nat, t: nat)
    requires k < |hw.records| && hw.records[k].valid && Points(hw.records[k], Lease(b, [t]))
    requires b % 0x1_0000 < |hw.cells| && hw.cells[b % 0x1_0000] != Track(t)
    requires k < |hw'.records| && Routing(hw'.cells, hw'.records[k]) == Wanted([t])
    ensures !SameRouting(hw, hw')
  {
    TruncatedReads(hw.cells, hw.records[k], b, t);
    assert !SameRoute(hw, hw.records[k], hw', hw'.records[k]);
  }
}
