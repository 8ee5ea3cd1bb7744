/** The drill that copies a write-ahead log entry by entry and damages one byte on the way.
    Log indices are 64-bit and wrap around; they are modelled as naturals with explicit wrapping. */
module WalCopy {
  const TWO_64: nat := 0x1_0000_0000_0000_0000

  type Bytes = seq<bv8>

  /** The source log: what can be read under each index. */
  datatype SourceLog = SourceLog(first: nat, last: nat, entries: map<nat, Bytes>) {
    /** The indices are 64-bit numbers. */
    predicate Valid() {
      first < TWO_64 && last < TWO_64
    }

    predicate Readable(index: nat) {
      index in entries
    }
  }

  datatype CopyError =
    | TooFewEntries
    | ReadFailed(index: nat)
    | EmptyEntry(index: nat)
    | WriteFailed(index: nat)
    | NotSynced          // the last flush, or closing a log, failed

  datatype Outcome = Copied | Failed(error: CopyError)

  /** The destination log: indices from 1, each write under the next contiguous index. */
  class DestinationLog {
    var entries: seq<Bytes>

    constructor ()
      ensures entries == []
    {
      entries := [];
    }

    method Write(index: nat, value: Bytes, storage: bool) returns (ok: bool)
      modifies this
      ensures ok <==> storage && index == |old(entries)| + 1
      ensures entries == if ok then old(entries) + [value] else old(entries)
    {
      ok := storage && index == |entries| + 1;
      if ok { entries := entries + [value]; }
    }
  }

  /** 64-bit subtraction and addition. */
  function Sub64(a: nat, b: nat): nat
    requires a < TWO_64 && b < TWO_64
  {
    if a >= b then a - b else a + TWO_64 - b
  }

  function Add64(a: nat, b: nat): nat
    requires a < TWO_64 && b < TWO_64
  {
    if a + b < TWO_64 then a + b else a + b - TWO_64
  }

  /** The check that the log has three entries, as the code computes it. */
  predicate Guard(first: nat, last: nat)
    requires first < TWO_64 && last < TWO_64
  {
    !(last < first || Add64(Sub64(last, first), 1) < 3)
  }

  /** The middle index, as the code computes it. */
  function Middle(first: nat, last: nat): nat
    requires first < TWO_64 && last < TWO_64
  {
    Add64(first, Sub64(last, first) / 2)
  }

  /** Wrapping never misleads the check: it accepts exactly the logs of at least three entries,
      save for the one log that holds all 2^64 indices, and then the middle is strictly inside. */
  lemma GuardIsExact(first: nat, last: nat)
    requires first < TWO_64 && last < TWO_64
    ensures Guard(first, last) <==> 3 <= last - first + 1 < TWO_64
    ensures Guard(first, last) ==> first < Middle(first, last) < last
    ensures Guard(first, last) ==> Middle(first, last) - first == (last - first) / 2
  {
  }

  /** The value with its middle byte inverted. */
  function Flip(value: Bytes): Bytes
    requires value != []
  {
    value[|value| / 2 := value[|value| / 2] ^ 0xff]
  }

  /** The values with the middle one flipped. */
  function Damaged(values: seq<Bytes>): seq<Bytes>
    requires values != [] && values[(|values| - 1) / 2] != []
  {
    var m := (|values| - 1) / 2;
    values[m := Flip(values[m])]
  }

  /** The source's values in index order. */
  function Values(source: SourceLog): seq<Bytes>
    requires source.first <= source.last
    requires forall i :: source.first <= i <= source.last ==> source.Readable(i)
  {
    seq(source.last - source.first + 1, i requires 0 <= i < source.last - source.first + 1 =>
      assert source.Readable(source.first + i); source.entries[source.first + i])
  }

  /** What the copy of the entry at `index` holds. */
  function CopyOf(source: SourceLog, index: nat): Bytes
    requires source.Valid() && source.Readable(index)
    requires index == Middle(source.first, source.last) ==> source.entries[index] != []
  {
    if index == Middle(source.first, source.last) then Flip(source.entries[index]) else source.entries[index]
  }

  predicate Copyable(source: SourceLog, index: nat)
    requires source.Valid()
  {
    source.Readable(index) && (index == Middle(source.first, source.last) ==> source.entries[index] != [])
  }

  /** `copied` holds the copies of the source's entries from the first index on. */
  predicate CopiedFrom(source: SourceLog, copied: seq<Bytes>)
    requires source.Valid()
  {
    forall i :: 0 <= i < |copied| ==> CopiedAt(source, copied, i)
  }

  predicate CopiedAt(source: SourceLog, copied: seq<Bytes>, i: nat)
    requires source.Valid() && i < |copied|
  {
    Copyable(source, source.first + i) && copied[i] == CopyOf(source, source.first + i)
  }

  /** The entry at offset `i` can be copied and the disk accepts it. */
  predicate Passes(source: SourceLog, storage: nat -> bool, i: nat)
    requires source.Valid()
  {
    Copyable(source, source.first + i) && storage(i + 1)
  }

  lemma CopiedSnoc(source: SourceLog, copied: seq<Bytes>, value: Bytes)
    requires source.Valid() && CopiedFrom(source, copied)
    requires Copyable(source, source.first + |copied|) && value == CopyOf(source, source.first + |copied|)
    ensures CopiedFrom(source, copied + [value])
  {
    forall i | 0 <= i < |copied| ensures CopiedAt(source, copied + [value], i) {
      assert CopiedAt(source, copied, i);
    }
  }

  /** Reading an entry yields a copy the caller may change. */
  method ReadValue(source: SourceLog, index: nat) returns (value: array<bv8>)
    requires source.Readable(index)
    ensures fresh(value) && value[..] == source.entries[index]
  {
    var stored := source.entries[index];
    value := new bv8[|stored|](i requires 0 <= i < |stored| => stored[i]);
  }

  method InvertMiddle(value: array<bv8>)
    requires value.Length > 0
    modifies value
    ensures value[..] == Flip(old(value[..]))
  {
    value[value.Length / 2] := value[value.Length / 2] ^ 0xff;
  }

  /** Copies the source, damaging its middle entry.  `storage` says which writes the disk accepts,
      and `flushed` whether the last flush and closing both logs succeed. */
  method CopyCorruptQueue(source: SourceLog, output: DestinationLog, storage: nat -> bool, flushed: bool)
    returns (r: Outcome)
    requires source.Valid()
    modifies output
    ensures r == Failed(TooFewEntries) <==> !(3 <= source.last - source.first + 1 < TWO_64)
    ensures old(output.entries) <= output.entries
    ensures old(output.entries) == [] ==> CopiedFrom(source, output.entries)
    ensures old(output.entries) != [] ==> r.Failed? && output.entries == old(output.entries)
    ensures r.Copied? <==>
      && 3 <= source.last - source.first + 1 < TWO_64
      && old(output.entries) == []
      && flushed
      && forall i :: 0 <= i <= source.last - source.first ==> Passes(source, storage, i)
    ensures r.Failed? ==> match r.error
      case TooFewEntries => true
      case ReadFailed(index) => source.first <= index <= source.last && !source.Readable(index)
      case EmptyEntry(index) =>
        source.first < index < source.last && source.Readable(index) && source.entries[index] == []
      case WriteFailed(index) =>
        1 <= index <= source.last - source.first + 1 && (old(output.entries) != [] || !storage(index))
      case NotSynced => !flushed
    ensures r.Copied? || r == Failed(NotSynced) ==> |output.entries| == source.last - source.first + 1
  {
    var first, last := source.first, source.last;
    GuardIsExact(first, last);
    if !Guard(first, last) {
      return Failed(TooFewEntries);
    }
    var middle := Middle(first, last);
    var destinationIndex := 1;
    var sourceIndex := first;
    while sourceIndex <= last
      invariant first <= sourceIndex <= last
      invariant destinationIndex == sourceIndex - first + 1
      invariant sourceIndex > first ==> old(output.entries) == []
      invariant old(output.entries) == [] ==>
        |output.entries| == sourceIndex - first && CopiedFrom(source, output.entries)
      invariant old(output.entries) != [] ==> output.entries == old(output.entries)
      invariant forall i :: 0 <= i < sourceIndex - first ==> Passes(source, storage, i)
      decreases last - sourceIndex
    {
      ghost var offset := sourceIndex - first;
      assert Passes(source, storage, offset) <==> Copyable(source, sourceIndex) && storage(destinationIndex);
      if !source.Readable(sourceIndex) {
        return Failed(ReadFailed(sourceIndex));
      }
      var value := ReadValue(source, sourceIndex);
      if sourceIndex == middle {
        if value.Length == 0 {
          return Failed(EmptyEntry(sourceIndex));
        }
        InvertMiddle(value);
      }
      assert value[..] == CopyOf(source, sourceIndex);
      ghost var copied := output.entries;
      var ok := output.Write(destinationIndex, value[..], storage(destinationIndex));
      if !ok {
        return Failed(WriteFailed(destinationIndex));
      }
      if old(output.entries) == [] { CopiedSnoc(source, copied, value[..]); }
      destinationIndex := Add64(destinationIndex, 1);
      if sourceIndex == last {
        break;
      }
      sourceIndex := Add64(sourceIndex, 1);
    }
    r := if flushed then Copied else Failed(NotSynced);
  }

  /** A complete copy is the source's values in order, with one entry damaged: neither the first
      nor the last, in exactly one byte. */
  lemma CopyIsDamaged(source: SourceLog, copied: seq<Bytes>)
    requires source.Valid() && Guard(source.first, source.last)
    requires |copied| == source.last - source.first + 1 && CopiedFrom(source, copied)
    ensures forall i :: source.first <= i <= source.last ==> source.Readable(i)
    ensures var values, m := Values(source), (|copied| - 1) / 2;
      && 0 < m < |copied| - 1
      && values[m] != [] && copied == Damaged(values)
      && (forall i :: 0 <= i < |values| && i != m ==> copied[i] == values[i])
      && |copied[m]| == |values[m]|
      && forall j :: 0 <= j < |values[m]| ==> (copied[m][j] != values[m][j] <==> j == |values[m]| / 2)
  {
    GuardIsExact(source.first, source.last);
    forall i | source.first <= i <= source.last ensures source.Readable(i) {
      assert CopiedAt(source, copied, i - source.first);
    }
    var values, m := Values(source), (|copied| - 1) / 2;
    assert CopiedAt(source, copied, m);
    forall i | 0 <= i < |copied| ensures copied[i] == if i == m then Flip(values[m]) else values[i] {
      assert CopiedAt(source, copied, i);
    }
    FlipChangesOneByte(values[m]);
  }

  lemma FlipChangesOneByte(value: Bytes)
    requires value != []
    ensures |Flip(value)| == |value| && Flip(Flip(value)) == value
    ensures forall j :: 0 <= j < |value| ==> (Flip(value)[j] != value[j] <==> j == |value| / 2)
  {
    InvertByte(value[|value| / 2]);
  }

  lemma InvertByte(b: bv8)
    ensures b ^ 0xff != b && (b ^ 0xff) ^ 0xff == b
  {
  }

  lemma DamageUndoesItself(values: seq<Bytes>)
    requires |values| >= 3 && values[(|values| - 1) / 2] != []
    ensures var damaged := Damaged(values);
      damaged != values && damaged[(|damaged| - 1) / 2] != [] && Damaged(damaged) == values
  {
    var m := (|values| - 1) / 2;
    FlipChangesOneByte(values[m]);
    var damaged := Damaged(values);
    assert damaged[m] != values[m] by { assert damaged[m][|values[m]| / 2] != values[m][|values[m]| / 2]; }
    assert Damaged(damaged) == values;
  }

  function ValueAt(copied: seq<Bytes>, index: nat): Bytes
    requires 1 <= index <= |copied|
  {
    copied[index - 1]
  }

  /** The destination log of a finished copy, opened as the source of the next one. */
  function LogOf(copied: seq<Bytes>): SourceLog {
    SourceLog(1, |copied|, map index: nat | 1 <= index <= |copied| :: ValueAt(copied, index))
  }

  /** A complete copy can itself be copied: its log passes the check and every entry of it can be
      read and, where it is to be damaged, changed. */
  lemma CopyIsCopyable(source: SourceLog, copied: seq<Bytes>)
    requires source.Valid() && Guard(source.first, source.last)
    requires |copied| == source.last - source.first + 1 && CopiedFrom(source, copied)
    ensures LogOf(copied).Valid() && Guard(1, |copied|)
    ensures forall index: nat :: 1 <= index <= |copied| ==> Copyable(LogOf(copied), index)
  {
    CopyIsDamaged(source, copied);
    GuardIsExact(source.first, source.last);
    GuardIsExact(1, |copied|);
    forall index: nat | 1 <= index <= |copied| ensures Copyable(LogOf(copied), index) {
      assert LogOf(copied).entries[index] == copied[index - 1];
    }
  }

  lemma ValuesOfLog(copied: seq<Bytes>)
    requires copied != []
    ensures forall index :: 1 <= index <= |copied| ==> LogOf(copied).Readable(index)
    ensures Values(LogOf(copied)) == copied
  {
  }

  /** Copying the copy gives back the source, whatever indices the source had: the second copy
      holds the source's values, and the first does not. */
  lemma CopyTwiceRestores(source: SourceLog, copied: seq<Bytes>, again: seq<Bytes>)
    requires source.Valid() && Guard(source.first, source.last)
    requires |copied| == source.last - source.first + 1 && CopiedFrom(source, copied)
    requires LogOf(copied).Valid() && |again| == |copied| && CopiedFrom(LogOf(copied), again)
    ensures forall i :: source.first <= i <= source.last ==> source.Readable(i)
    ensures copied != Values(source) && again == Values(source)
  {
    CopyIsDamaged(source, copied);
    DamageUndoesItself(Values(source));
    CopyIsCopyable(source, copied);
    ValuesOfLog(copied);
    CopyIsDamaged(LogOf(copied), again);
  }

  /** The drill run on its own output.  The second run succeeds whenever the disk lets it, and then
      its log holds the source's entries. */
  method CopyTwice(source: SourceLog, storage: nat -> bool, storageAgain: nat -> bool,
        flushed: bool, flushedAgain: bool)
    returns (first: Outcome, again: Outcome, restored: seq<Bytes>)
    requires source.Valid()
    ensures first.Copied? ==>
      var n := source.last - source.first + 1;
      (again.Copied? <==> flushedAgain && forall index :: 1 <= index <= n ==> storageAgain(index))
    ensures first.Copied? && again.Copied? ==>
      && source.first <= source.last
      && (forall i :: source.first <= i <= source.last ==> source.Readable(i))
      && restored == Values(source)
  {
    var output := new DestinationLog();
    first := CopyCorruptQueue(source, output, storage, flushed);
    if first.Failed? {
      return first, first, [];
    }
    GuardIsExact(source.first, source.last);
    var copied := output.entries;
    CopyIsCopyable(source, copied);
    GuardIsExact(1, |copied|);
    output := new DestinationLog();
    again := CopyCorruptQueue(LogOf(copied), output, storageAgain, flushedAgain);
    restored := output.entries;
    forall i | 0 <= i < |copied| ensures Passes(LogOf(copied), storageAgain, i) <==> storageAgain(i + 1) {
      assert Copyable(LogOf(copied), 1 + i);
    }
    forall index | 1 <= index <= |copied|
      ensures Passes(LogOf(copied), storageAgain, index - 1) <==> storageAgain(index)
    {
    }
    if again.Copied? { CopyTwiceRestores(source, copied, restored); }
  }
}
