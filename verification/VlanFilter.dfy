/**
 The VLAN filter of the network device: a bitmap of 4096 ids in 128 registers, and an enable bit
 that must be set exactly while an id is registered.
 */
module VlanFilter {

  const WORDS: nat := 128
  const IDS: nat := 4096
  const ENABLE: nat := 31

  /** A 32-bit register, bit by bit. */
  type Word = w: seq<bool> | |w| == 32 witness seq(32, _ => false)

  function Bit(k: nat): Word {
    seq(32, i => i == k)
  }

  const NONE: Word := seq(32, _ => false)

  /** Read, clear the mask, set the value, write. */
  function Masked(r: Word, mask: Word, val: Word): Word {
    seq(32, i requires 0 <= i < 32 => (r[i] && !mask[i]) || val[i])
  }

  datatype Op = Add(id: nat) | Kill(id: nat)

  /** The ids registered after a sequence of operations. */
  function Registered(ids: set<nat>, ops: seq<Op>): set<nat>
    decreases |ops|
  {
    if ops == [] then ids else
    var before := Registered(ids, ops[..|ops| - 1]);
    match ops[|ops| - 1]
    case Add(id) => before + {id}
    case Kill(id) => before - {id}
  }

  class Filter {
    const words: array<Word>
    var ctrl: Word

    ghost predicate Valid()
      reads this
    {
      words.Length == WORDS
    }

    /** The ids in the bitmap. */
    ghost function Ids(): set<nat>
      requires Valid()
      reads this, words
    {
      set v: nat | 0 <= v < IDS && words[v / 32][v % 32]
    }

    /** The enable bit is set exactly when an id is registered. */
    ghost predicate Agrees()
      requires Valid()
      reads this, words
    {
      ctrl[ENABLE] <==> Ids() != {}
    }

    constructor ()
      ensures Valid() && Ids() == {} && Agrees()
    {
      words := new Word[WORDS](_ => NONE);
      ctrl := NONE;
    }

    method AddVid(vid: nat)
      requires Valid() && vid < IDS
      modifies this, words
      ensures Ids() == old(Ids()) + {vid}
      ensures ctrl == old(ctrl)[ENABLE := true]
    {
      words[vid / 32] := Masked(words[vid / 32], Bit(vid % 32), Bit(vid % 32));
      ctrl := Masked(ctrl, Bit(ENABLE), Bit(ENABLE));
      assert ctrl == old(ctrl)[ENABLE := true];
      forall v: nat | v < IDS
        ensures words[v / 32][v % 32] <==> old(words[v / 32][v % 32]) || v == vid
      {
      }
    }

    method ClearBit(vid: nat)
      requires Valid() && vid < IDS
      modifies words
      ensures Ids() == old(Ids()) - {vid}
    {
      words[vid / 32] := Masked(words[vid / 32], Bit(vid % 32), NONE);
      forall v: nat | v < IDS
        ensures words[v / 32][v % 32] <==> old(words[v / 32][v % 32]) && v != vid
      {
      }
    }

    /** Whether every register of the bitmap is zero. */
    method BitmapEmpty() returns (empty: bool)
      requires Valid()
      ensures empty <==> Ids() == {}
    {
      for i := 0 to WORDS
        invariant forall j | 0 <= j < i :: words[j] == NONE
      {
        if words[i] != NONE {
          ghost var k :| 0 <= k < 32 && words[i][k];
          HasId(i, k);
          return false;
        }
      }
      assert forall v: nat | v < IDS :: words[v / 32] == NONE;
      empty := true;
    }

    lemma HasId(i: nat, k: nat)
      requires Valid() && i < WORDS && k < 32 && words[i][k]
      ensures 32 * i + k in Ids()
    {
      assert (32 * i + k) / 32 == i && (32 * i + k) % 32 == k;
    }

    /** Clears the id, and the enable bit if no register has a bit left. */
    method KillVid(vid: nat)
      requires Valid() && vid < IDS
      modifies this, words
      ensures Ids() == old(Ids()) - {vid}
      ensures ctrl == if Ids() == {} then old(ctrl)[ENABLE := false] else old(ctrl)
    {
      ClearBit(vid);
      var empty := BitmapEmpty();
      if !empty {
        return;
      }
      ctrl := Masked(ctrl, Bit(ENABLE), NONE);
      assert ctrl == old(ctrl)[ENABLE := false];
    }

    /** After any sequence of operations the bitmap is the set of registered ids, the enable bit
        agrees with it, and the other control bits are as before. */
    method Perform(ops: seq<Op>)
      requires Valid() && Agrees() && forall i | 0 <= i < |ops| :: ops[i].id < IDS
      modifies this, words
      ensures Ids() == Registered(old(Ids()), ops) && Agrees()
      ensures forall b | 0 <= b < 32 && b != ENABLE :: ctrl[b] == old(ctrl)[b]
    {
      for n := 0 to |ops|
        invariant Ids() == Registered(old(Ids()), ops[..n]) && Agrees()
        invariant forall b | 0 <= b < 32 && b != ENABLE :: ctrl[b] == old(ctrl)[b]
      {
        assert ops[..n + 1][..n] == ops[..n];
        match ops[n]
        case Add(id) => AddVid(id);
        case Kill(id) => KillVid(id);
      }
      assert ops[..|ops|] == ops;
    }
  }
}
