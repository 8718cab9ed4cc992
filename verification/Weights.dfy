/**
 Conservation: the number of set bits in the bitmaps is the sum over the live streams.
 */
module Weights {
  import opened TrackTable
  import opened TrackClaims

  /** The set bits of a bitmap. */
  ghost function Ones(bits: seq<bool>): set<int> {
    set j | 0 <= j < |bits| && bits[j]
  }

  /** The number of channels of the streams with an index below `n`. */
  ghost function ChannelSum(m: map<nat, Lease>, n: nat): nat {
    if n == 0 then 0 else ChannelSum(m, n - 1) + if n - 1 in m then |m[n - 1].tracks| else 0
  }

  ghost function ActiveCount(tracks: seq<int>): nat {
    if tracks == [] then 0
    else ActiveCount(tracks[..|tracks| - 1]) + if tracks[|tracks| - 1] >= 0 then 1 else 0
  }

  /** The number of active channels of the streams with an index below `n`. */
  ghost function ActiveSum(m: map<nat, Lease>, n: nat): nat {
    if n == 0 then 0 else ActiveSum(m, n - 1) + if n - 1 in m then ActiveCount(m[n - 1].tracks) else 0
  }

  /** The `n` consecutive words from `b`. */
  ghost function Range(b: nat, n: nat): (r: set<int>)
    ensures |r| == n
    ensures forall j :: j in r <==> b <= j < b + n
  {
    if n == 0 then {} else Range(b, n - 1) + {b + n - 1}
  }

  ghost function Active(tracks: seq<int>): set<int> {
    set t | t in tracks && t >= 0
  }

  lemma {:induction false} ActiveSize(tracks: seq<int>)
    requires NoRepeats(tracks)
    ensures |Active(tracks)| == ActiveCount(tracks)
    decreases |tracks|
  {
    if tracks != [] {
      var init, last := tracks[..|tracks| - 1], tracks[|tracks| - 1];
      ActiveSize(init);
      assert tracks == init + [last];
      assert Active(tracks) == Active(init) + if last >= 0 then {last} else {};
      assert last >= 0 ==> last !in Active(init);
    }
  }

  /** The words leased to streams with an index below `n`. */
  ghost function WordsBelow(m: map<nat, Lease>, n: nat): set<int> {
    if n == 0 then {}
    else WordsBelow(m, n - 1) + if n - 1 in m then Words(m[n - 1]) else {}
  }

  ghost function Words(l: Lease): set<int> {
    Range(l.base, |l.tracks|)
  }

  lemma DisjointUnion(a: set<int>, b: set<int>)
    requires a !! b
    ensures |a + b| == |a| + |b|
  {
  }

  lemma {:induction false} InWordsBelow(m: map<nat, Lease>, n: nat, k: nat, j: int)
    requires k in m && k < n && InLease(m[k], j)
    ensures j in WordsBelow(m, n)
  {
    if k < n - 1 {
      InWordsBelow(m, n - 1, k, j);
    } else {
      assert j in Words(m[k]);
    }
  }

  lemma {:induction false} OwnerBelow(m: map<nat, Lease>, n: nat, j: int) returns (k: nat)
    requires j in WordsBelow(m, n)
    ensures k in m && k < n && InLease(m[k], j)
  {
    if j in WordsBelow(m, n - 1) {
      k := OwnerBelow(m, n - 1, j);
    } else {
      k := n - 1;
      assert j in Words(m[k]);
    }
  }

  lemma WordsApart(m: map<nat, Lease>, n: nat)
    requires Disjoint(m) && n in m
    ensures Words(m[n]) !! WordsBelow(m, n)
  {
    forall j | j in Words(m[n]) ensures j !in WordsBelow(m, n) {
      assert InLease(m[n], j);
      if j in WordsBelow(m, n) {
        var k := OwnerBelow(m, n, j);
      }
    }
  }

  lemma {:induction false} WordsBelowSize(m: map<nat, Lease>, n: nat)
    requires Disjoint(m)
    ensures |WordsBelow(m, n)| == ChannelSum(m, n)
  {
    if n > 0 {
      WordsBelowSize(m, n - 1);
      if n - 1 in m {
        WordsApart(m, n - 1);
        DisjointUnion(WordsBelow(m, n - 1), Words(m[n - 1]));
      }
    }
  }

  /** The weight of the allocation bitmap is the summed channel count of the live streams. */
  lemma UsedWeight(used: seq<bool>, cells: seq<Cell>, m: map<nat, Lease>, n: nat)
    requires TableInv(used, cells, m) && forall k | k in m :: k < n
    ensures |Ones(used)| == ChannelSum(m, n)
  {
    forall j: int ensures j in Ones(used) <==> j in WordsBelow(m, n) {
      if j in Ones(used) {
        var k :| k in m && InLease(m[k], j);
        InWordsBelow(m, n, k, j);
      }
      if j in WordsBelow(m, n) {
        var k := OwnerBelow(m, n, j);
        assert Covered(m, j) && m[k].base + |m[k].tracks| <= |used|;
      }
    }
    assert Ones(used) == WordsBelow(m, n);
    WordsBelowSize(m, n);
  }

  /** The tracks routed by streams with an index below `n`. */
  ghost function TracksBelow(m: map<nat, Lease>, n: nat): set<int> {
    if n == 0 then {}
    else TracksBelow(m, n - 1) + if n - 1 in m then Active(m[n - 1].tracks) else {}
  }

  lemma {:induction false} InTracksBelow(m: map<nat, Lease>, n: nat, k: nat, t: int)
    requires k in m && k < n && Routes(m[k], t)
    ensures t in TracksBelow(m, n)
  {
    if k < n - 1 {
      InTracksBelow(m, n - 1, k, t);
    } else {
      assert t in Active(m[k].tracks);
    }
  }

  lemma {:induction false} RouterBelow(m: map<nat, Lease>, n: nat, t: int) returns (k: nat)
    requires t in TracksBelow(m, n)
    ensures k in m && k < n && Routes(m[k], t)
  {
    if t in TracksBelow(m, n - 1) {
      k := RouterBelow(m, n - 1, t);
    } else {
      k := n - 1;
      assert t in Active(m[k].tracks);
    }
  }

  lemma TracksApart(m: map<nat, Lease>, n: nat)
    requires Exclusive(m) && n in m
    ensures Active(m[n].tracks) !! TracksBelow(m, n)
  {
    forall t | t in Active(m[n].tracks) ensures t !in TracksBelow(m, n) {
      assert Routes(m[n], t);
      if t in TracksBelow(m, n) {
        var k := RouterBelow(m, n, t);
      }
    }
  }

  lemma {:induction false} TracksBelowSize(m: map<nat, Lease>, n: nat)
    requires Exclusive(m) && forall k | k in m :: NoRepeats(m[k].tracks)
    ensures |TracksBelow(m, n)| == ActiveSum(m, n)
  {
    if n > 0 {
      TracksBelowSize(m, n - 1);
      if n - 1 in m {
        ActiveSize(m[n - 1].tracks);
        TracksApart(m, n - 1);
        DisjointUnion(TracksBelow(m, n - 1), Active(m[n - 1].tracks));
      }
    }
  }

  /** The weight of the claim bitmap is the summed number of active channels. */
  lemma ClaimedWeight(claimed: seq<bool>, m: map<nat, Lease>, n: nat)
    requires ClaimsInv(claimed, m) && forall k | k in m :: k < n
    ensures |Ones(claimed)| == ActiveSum(m, n)
  {
    forall t: int ensures t in Ones(claimed) <==> t in TracksBelow(m, n) {
      if t in Ones(claimed) {
        var k :| k in m && Routes(m[k], t);
        InTracksBelow(m, n, k, t);
      }
      if t in TracksBelow(m, n) {
        var k := RouterBelow(m, n, t);
        assert Claimed(m, t);
      }
    }
    assert Ones(claimed) == TracksBelow(m, n);
    TracksBelowSize(m, n);
  }
}
