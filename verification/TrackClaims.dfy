/**
 The RX bitmap of claimed tracks.

 A track may be the destination of at most one RX channel.  Before a stream is installed its
 active (non-negative) tracks are checked against the bitmap and against each other.
 */
module TrackClaims {
  import opened Options
  import opened TrackTable
  import opened StreamCommon

  ghost predicate Routes(l: Lease, t: int) {
    t >= 0 && t in l.tracks
  }

  ghost predicate Claimed(m: map<nat, Lease>, t: int) {
    exists k :: k in m && Routes(m[k], t)
  }

  /** No track is routed by two streams. */
  ghost predicate Exclusive(m: map<nat, Lease>) {
    forall k, l, t :: k in m && l in m && k != l && Routes(m[k], t) ==> !Routes(m[l], t)
  }

  /** No track is routed twice by one stream. */
  ghost predicate NoRepeats(tracks: seq<int>) {
    forall i, j :: 0 <= i < j < |tracks| && tracks[i] >= 0 ==> tracks[i] != tracks[j]
  }

  /** The bitmap is exactly the union of the active tracks, each routed by one channel only. */
  ghost predicate ClaimsInv(claimed: seq<bool>, m: map<nat, Lease>) {
    && Exclusive(m)
    && (forall k | k in m :: NoRepeats(m[k].tracks) && InBounds(m[k].tracks, |claimed|))
    && (forall t | 0 <= t < |claimed| :: claimed[t] <==> Claimed(m, t))
  }

  /** The verdict of the availability check from channel `i` on: the first offending channel
      decides, and a track claimed by another stream outranks a repeated one. */
  function CheckFrom(claimed: seq<bool>, tracks: seq<int>, i: nat): (r: Option<Errno>)
    requires InBounds(tracks, |claimed|) && i <= |tracks|
    decreases |tracks| - i
  {
    if i == |tracks| then None
    else if tracks[i] < 0 then CheckFrom(claimed, tracks, i + 1)
    else if claimed[tracks[i]] then Some(EBUSY)
    else if tracks[i] in tracks[..i] then Some(EINVAL)
    else CheckFrom(claimed, tracks, i + 1)
  }

  function Check(claimed: seq<bool>, tracks: seq<int>): (r: Option<Errno>)
    requires InBounds(tracks, |claimed|)
  {
    CheckFrom(claimed, tracks, 0)
  }

  ghost predicate Unclaimed(claimed: seq<bool>, tracks: seq<int>)
    requires InBounds(tracks, |claimed|)
  {
    forall i | 0 <= i < |tracks| && tracks[i] >= 0 :: !claimed[tracks[i]]
  }

  /** The check passes exactly when the tracks are pairwise distinct and nobody claims them. */
  lemma CheckPasses(claimed: seq<bool>, tracks: seq<int>)
    requires InBounds(tracks, |claimed|)
    ensures Check(claimed, tracks).None? <==> NoRepeats(tracks) && Unclaimed(claimed, tracks)
  {
    CheckFromPasses(claimed, tracks, 0);
    assert NoRepeats(tracks) <==> forall j | 0 <= j < |tracks| && tracks[j] >= 0 :: tracks[j] !in tracks[..j];
  }

  lemma {:induction false} CheckFromPasses(claimed: seq<bool>, tracks: seq<int>, i: nat)
    requires InBounds(tracks, |claimed|) && i <= |tracks|
    ensures CheckFrom(claimed, tracks, i).None? <==>
            forall j | i <= j < |tracks| && tracks[j] >= 0 :: !claimed[tracks[j]] && tracks[j] !in tracks[..j]
    decreases |tracks| - i
  {
    if i < |tracks| {
      CheckFromPasses(claimed, tracks, i + 1);
    }
  }

  function TracksMarked(claimed: seq<bool>, tracks: seq<int>, value: bool): (r: seq<bool>)
    ensures |r| == |claimed|
    ensures forall t | 0 <= t < |claimed| :: r[t] == if t in tracks then value else claimed[t]
  {
    seq(|claimed|, t requires 0 <= t < |claimed| => if t in tracks then value else claimed[t])
  }

  /** Claiming the tracks of a new stream that passed the check keeps the bitmap exact. */
  lemma ClaimKeeps(claimed: seq<bool>, m: map<nat, Lease>, k: nat, l: Lease)
    requires ClaimsInv(claimed, m) && k !in m
    requires InBounds(l.tracks, |claimed|) && NoRepeats(l.tracks) && Unclaimed(claimed, l.tracks)
    ensures ClaimsInv(TracksMarked(claimed, l.tracks, true), m[k := l])
  {
    var m' := m[k := l];
    var claimed' := TracksMarked(claimed, l.tracks, true);
    forall t | Routes(l, t) ensures 0 <= t < |claimed| && !Claimed(m, t) {
      var i :| 0 <= i < |l.tracks| && l.tracks[i] == t;
      assert !claimed[l.tracks[i]];
    }
    forall i, t | i in m && Routes(m[i], t) ensures !Routes(l, t) {
      assert Claimed(m, t);
    }
    assert Exclusive(m');
    forall t | 0 <= t < |claimed| ensures claimed'[t] <==> Claimed(m', t) {
      if Claimed(m, t) {
        var i :| i in m && Routes(m[i], t);
        assert i in m' && m'[i] == m[i];
      }
      if t in l.tracks {
        assert m'[k] == l && Routes(m'[k], t);
      }
    }
  }

  /** Dropping the claims of a stream keeps the bitmap exact for the others. */
  lemma UnclaimKeeps(claimed: seq<bool>, m: map<nat, Lease>, k: nat)
    requires ClaimsInv(claimed, m) && k in m
    ensures ClaimsInv(TracksMarked(claimed, m[k].tracks, false), m - {k})
  {
    var m' := m - {k};
    var claimed' := TracksMarked(claimed, m[k].tracks, false);
    assert forall i :: i in m' ==> i in m && m'[i] == m[i];
    forall t | 0 <= t < |claimed| ensures claimed'[t] <==> Claimed(m', t) {
      if Claimed(m', t) {
        var i :| i in m' && Routes(m'[i], t);
        assert i in m && Routes(m[i], t) && !Routes(m[k], t);
      }
      if claimed'[t] {
        var i :| i in m && Routes(m[i], t);
        assert i in m' && Routes(m'[i], t);
      }
    }
  }

  /** Dropping and re-taking the claims of a stream restores the bitmap. */
  lemma ReclaimRestores(claimed: seq<bool>, m: map<nat, Lease>, k: nat)
    requires ClaimsInv(claimed, m) && k in m
    ensures TracksMarked(TracksMarked(claimed, m[k].tracks, false), m[k].tracks, true) == claimed
  {
    forall t | 0 <= t < |claimed| && t in m[k].tracks ensures claimed[t] {
      assert Routes(m[k], t);
    }
  }

  /** Claims do not depend on where a range lies. */
  lemma RebaseKeeps(claimed: seq<bool>, m: map<nat, Lease>, k: nat, b: nat)
    requires ClaimsInv(claimed, m) && k in m
    ensures ClaimsInv(claimed, m[k := Lease(b, m[k].tracks)])
  {
    var m' := m[k := Lease(b, m[k].tracks)];
    assert forall i, t :: i in m ==> (Routes(m[i], t) <==> Routes(m'[i], t));
    forall t: int ensures Claimed(m, t) <==> Claimed(m', t) {
      if Claimed(m, t) {
        var i :| i in m && Routes(m[i], t);
        assert i in m' && Routes(m'[i], t);
      }
      if Claimed(m', t) {
        var i :| i in m' && Routes(m'[i], t);
        assert i in m && Routes(m[i], t);
      }
    }
  }

  // ------------------------------------------------------------------------------------------
  // The verdict, in terms of the leases
  // ------------------------------------------------------------------------------------------

  /** Channel `i` asks for a track that somebody in `m` routes, or that an earlier channel asks for. */
  ghost predicate Offends(m: map<nat, Lease>, tracks: seq<int>, i: nat) {
    i < |tracks| && tracks[i] >= 0 && (Claimed(m, tracks[i]) || tracks[i] in tracks[..i])
  }

  ghost predicate FirstOffends(m: map<nat, Lease>, tracks: seq<int>, i: nat) {
    Offends(m, tracks, i) && forall j: nat | j < i :: !Offends(m, tracks, j)
  }

  /** No channel asks for a track that somebody in `m` routes, or for one twice. */
  ghost predicate TracksFree(m: map<nat, Lease>, tracks: seq<int>) {
    forall j: nat :: !Offends(m, tracks, j)
  }

  /** The error for the first channel that does. */
  ghost predicate TrackError(m: map<nat, Lease>, tracks: seq<int>, e: Errno) {
    exists j: nat :: FirstOffends(m, tracks, j) && e == if Claimed(m, tracks[j]) then EBUSY else EINVAL
  }

  /** The verdict of the check says so. */
  ghost predicate Verdict(m: map<nat, Lease>, tracks: seq<int>, r: Option<Errno>) {
    match r
    case None => TracksFree(m, tracks)
    case Some(e) => !TracksFree(m, tracks) && TrackError(m, tracks, e)
  }

  lemma {:induction false} CheckFromReturns(claimed: seq<bool>, m: map<nat, Lease>, tracks: seq<int>, i: nat)
    requires ClaimsInv(claimed, m) && InBounds(tracks, |claimed|) && i <= |tracks|
    requires forall j: nat | j < i :: !Offends(m, tracks, j)
    ensures Verdict(m, tracks, CheckFrom(claimed, tracks, i))
    decreases |tracks| - i
  {
    if i < |tracks| {
      if tracks[i] >= 0 {
        assert claimed[tracks[i]] <==> Claimed(m, tracks[i]);
      }
      if Offends(m, tracks, i) {
        assert FirstOffends(m, tracks, i);
      } else {
        CheckFromReturns(claimed, m, tracks, i + 1);
      }
    }
  }

  /** What the check returns: the first offending channel decides, and a track that another stream routes
      is answered differently from a track that is repeated. */
  lemma CheckReturns(claimed: seq<bool>, m: map<nat, Lease>, tracks: seq<int>)
    requires ClaimsInv(claimed, m) && InBounds(tracks, |claimed|)
    ensures Verdict(m, tracks, Check(claimed, tracks))
  {
    CheckFromReturns(claimed, m, tracks, 0);
  }
}
