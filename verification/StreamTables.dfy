/**
 The tables of one direction as the driver holds them: the allocation bitmap in memory, and the
 two memory-mapped tables.  Every hardware write is recorded in a ghost log, and the hardware is
 at all times the replay of that log.
 */
module StreamTables {
  import opened Options
  import opened TrackTable

  /** The lowest clear bit from `from` on, or the length. */
  method FindNextZeroBit(bits: array<bool>, from: nat) returns (i: nat)
    requires from <= bits.Length
    ensures from <= i <= bits.Length
    ensures forall j | from <= j < i :: bits[j]
    ensures i < bits.Length ==> !bits[i]
  {
    i := from;
    while i < bits.Length && bits[i]
      invariant from <= i <= bits.Length
      invariant forall j | from <= j < i :: bits[j]
    {
      i := i + 1;
    }
  }

  /** The lowest set bit in `from .. size`, or `size`. */
  method FindNextBit(bits: array<bool>, size: nat, from: nat) returns (i: nat)
    requires from <= size <= bits.Length
    ensures from <= i <= size
    ensures forall j | from <= j < i :: !bits[j]
    ensures i < size ==> bits[i]
  {
    i := from;
    while i < size && !bits[i]
      invariant from <= i <= size
      invariant forall j | from <= j < i :: !bits[j]
    {
      i := i + 1;
    }
  }

  /** The skip search: look for a clear bit, look for a set bit in the area behind it, and
      continue behind that.  A result below the length is the first fit; any other result means
      that nothing fits. */
  method FindZeroArea(bits: array<bool>, n: nat) returns (start: nat)
    ensures FirstFit(bits[..], n) == if start < bits.Length then Some(start) else None
  {
    var from := 0;
    while true
      invariant from <= bits.Length
      invariant forall c: nat | c < from :: !Fits(bits[..], n, c)
      decreases bits.Length - from
    {
      var index := FindNextZeroBit(bits, from);
      var end := index + n;
      if end > bits.Length {
        return end;
      }
      var i := FindNextBit(bits, end, index);
      if i >= end {
        if index < bits.Length {
          FirstFitUnique(bits[..], n, index);
        }
        return index;
      }
      from := i + 1;
    }
  }

  class Tables<R> {
    const used: array<bool>
    const cells: array<Cell>
    const records: array<R>
    ghost const start: Hardware<R>
    ghost var log: seq<Write<R>>

    ghost function Hw(): Hardware<R>
      reads cells, records
    {
      Hardware(cells[..], records[..])
    }

    ghost predicate Valid()
      reads this, cells, records
    {
      && used.Length == cells.Length
      && records as object != cells && records as object != used
      && Hw() == ApplyAll(start, log)
    }

    /** Mutes every word and clears every record of the mapped tables. */
    constructor (cells: array<Cell>, records: array<R>, zero: R)
      requires records as object != cells
      modifies cells, records
      ensures Valid() && fresh(used) && this.cells == cells && this.records == records
      ensures log == []
      ensures used.Length == cells.Length && forall j | 0 <= j < used.Length :: !used[j]
      ensures forall j | 0 <= j < cells.Length :: cells[j] == Mute
      ensures forall k | 0 <= k < records.Length :: records[k] == zero
    {
      this.cells := cells;
      this.records := records;
      for i := 0 to records.Length
        invariant forall k | 0 <= k < i :: records[k] == zero
      {
        records[i] := zero;
      }
      for i := 0 to cells.Length
        invariant forall k | 0 <= k < records.Length :: records[k] == zero
        invariant forall j | 0 <= j < i :: cells[j] == Mute
      {
        cells[i] := Mute;
      }
      used := new bool[cells.Length](_ => false);
      start := Hardware(cells[..], records[..]);
      log := [];
    }

    /** One word of the track table.  The bound is the one the driver treats as a bug. */
    method WriteCell(index: nat, cell: Cell)
      requires Valid() && index < cells.Length
      modifies this, cells
      ensures Valid()
      ensures log == old(log) + [CellWrite(index, cell)]
    {
      cells[index] := cell;
      log := log + [CellWrite(index, cell)];
      assert log[..|log| - 1] == old(log);
      assert cells[..] == old(cells[..])[index := cell];
    }

    method WriteRecord(index: nat, record: R)
      requires Valid() && index < records.Length
      modifies this, records
      ensures Valid()
      ensures log == old(log) + [RecordWrite(index, record)]
    {
      records[index] := record;
      log := log + [RecordWrite(index, record)];
      assert log[..|log| - 1] == old(log);
      assert records[..] == old(records[..])[index := record];
    }

    method Mark(start: nat, n: nat, value: bool)
      requires start + n <= used.Length
      modifies used
      ensures used[..] == Marked(old(used[..]), start, n, value)
    {
      for i := 0 to n
        invariant forall j | 0 <= j < used.Length ::
                    used[j] == if start <= j < start + i then value else old(used[j])
      {
        used[start + i] := value;
      }
    }

    method Alloc(n: nat) returns (r: Option<nat>)
      modifies used
      ensures r == FirstFit(old(used[..]), n)
      ensures used[..] == if r.Some? then Marked(old(used[..]), r.value, n, true) else old(used[..])
    {
      var start := FindZeroArea(used, n);
      if start >= used.Length {
        return None;
      }
      Mark(start, n, true);
      r := Some(start);
    }

    method Set(index: nat, n: nat, tracks: seq<int>)
      requires Valid() && n <= |tracks| && index + n <= cells.Length
      modifies this, cells
      ensures Valid()
      ensures log == old(log) + SetWrites<R>(index, tracks[..n])
    {
      for i := 0 to n
        invariant Valid()
        invariant log == old(log) + SetWrites<R>(index, tracks[..i])
      {
        WriteCell(index + i, if tracks[i] >= 0 then Track(tracks[i]) else Mute);
        assert SetWrites<R>(index, tracks[..i + 1]) ==
               SetWrites<R>(index, tracks[..i]) + [CellWrite(index + i, CellOf(tracks[i]))];
      }
    }

    method Free(index: nat, n: nat)
      requires Valid() && index + n <= cells.Length
      modifies this, cells, used
      ensures Valid()
      ensures log == old(log) + FreeWrites<R>(index, n)
      ensures used[..] == Marked(old(used[..]), index, n, false)
    {
      for i := 0 to n
        invariant Valid()
        invariant used[..] == old(used[..])
        invariant log == old(log) + FreeWrites<R>(index, i)
      {
        WriteCell(index + i, Mute);
        assert FreeWrites<R>(index, i + 1) == FreeWrites<R>(index, i) + [CellWrite(index + i, Mute)];
      }
      Mark(index, n, false);
    }
  }
}
