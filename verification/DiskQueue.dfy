/** The recorder's disk queue: whole batches appended to a write-ahead log under contiguous
    64-bit sequence numbers, read from the front and removed only by a commit, with the pending
    usage cached beside the log. */
module DiskQueue {
  import opened Capacity
  import opened Wrappers

  const MAX_UINT64: nat := 0xFFFF_FFFF_FFFF_FFFF

  /** The longest length prefix the log puts in front of an entry. */
  const MAX_PREFIX_BYTES: nat := 10

  const MAX_RECORD_BYTES: nat := 0x1_0000

  /** A request record, known by its identifier and its encoded size. */
  datatype Record = Record(id: string, size: nat)

  /** A decoded log entry: one batch and the time it was appended. */
  datatype Entry = Entry(records: seq<Record>, enqueuedAt: int) {
    /** The checks made when an entry is encoded, and again when it is decoded. */
    predicate Sound() {
      records != [] && enqueuedAt > 0 && forall r <- records :: 0 < r.size <= MAX_RECORD_BYTES
    }
  }

  /** What the log holds under one sequence number: an entry whose checksum matches, or garbage. */
  datatype Stored = Framed(entry: Entry) | Garbage {
    predicate Decodes() {
      Framed? && entry.Sound()
    }
  }

  datatype Usage = Usage(entries: nat, records: nat, bytes: nat, oldest: Option<int>)

  datatype QueuedBatch = QueuedBatch(records: seq<Record>, lastSequence: nat, bytes: int)

  datatype QueueError =
    | InvalidBatch       // the batch cannot be stored as one entry
    | Full               // the capacity policy refuses the growth
    | Exhausted          // no sequence number is left
    | Empty              // nothing is pending
    | BadLimit
    | Inconsistent       // a commit does not match the log
    | Damaged            // an entry does not decode
    | OutOfRange         // the usage exceeds 64-bit counters
    | IO

  /** What the storage probe finds beside the bytes of the pending records: their framing, other
      files and rounding. */
  datatype Space = Space(overhead: nat, largestFileBytes: nat, freeBytes: nat, blockBytes: nat)

  /** What the world outside the queue does to one append: the bytes the encoding adds to the
      records (none if they cannot be encoded), whether the log can be asked for its last index,
      what the probe finds, and whether the entry gets onto the disk. */
  datatype Disk = Disk(framing: Option<nat>, open: bool, space: Option<Space>, written: bool)

  /** What the probe reports for a log of `pending` record bytes.  Used space and file sizes beyond
      64 bits are errors, and so is a block size that is none; more free space than that counts as
      the largest number. */
  function Probe(pending: nat, space: Option<Space>): Option<Storage> {
    if space.None? then None else
    var found := space.value;
    if pending + found.overhead > MAX_INT64 || found.largestFileBytes > MAX_INT64
       || !(0 < found.blockBytes <= MAX_INT64) then None
    else
      var free := if found.freeBytes > MAX_INT64 then MAX_INT64 else found.freeBytes;
      Some(Storage((pending + found.overhead) as int64, found.largestFileBytes as int64,
                   free as int64, found.blockBytes as int64))
  }

  function Bytes(records: seq<Record>): nat {
    if records == [] then 0 else Bytes(records[..|records| - 1]) + records[|records| - 1].size
  }

  /** The records of the entries, in order. */
  function Records(entries: seq<Entry>): seq<Record> {
    if entries == [] then [] else Records(entries[..|entries| - 1]) + entries[|entries| - 1].records
  }

  /** What one append may add to the log file. */
  function EncodedSize(records: seq<Record>, disk: Disk): nat
    requires disk.framing.Some?
  {
    Bytes(records) + disk.framing.value + MAX_PREFIX_BYTES
  }

  /** The batch makes a sound entry that can be encoded. */
  predicate Encodes(records: seq<Record>, now: int, disk: Disk) {
    Entry(records, now).Sound() && disk.framing.Some?
  }

  /** With `pending` record bytes in the log, the probe answers and the entry is no longer than a
      segment. */
  predicate InSegment(policy: Policy, pending: nat, records: seq<Record>, disk: Disk)
    requires disk.framing.Some?
  {
    Probe(pending, disk.space).Some? && EncodedSize(records, disk) <= policy.segmentBytes as int
  }

  /** The probe answers, and the policy finds room for the entry. */
  ghost predicate RoomFor(policy: Policy, pending: nat, records: seq<Record>, disk: Disk)
    requires disk.framing.Some?
  {
    && InSegment(policy, pending, records, disk)
    && var storage := Probe(pending, disk.space).value;
       policy.LeavesRoom(storage, Rounded(EncodedSize(records, disk), storage.blockBytes as int))
  }

  /** A log with `pending` record bytes and a number left takes the batch. */
  ghost predicate Storable(policy: Policy, pending: nat, records: seq<Record>, now: int, disk: Disk) {
    Encodes(records, now, disk) && disk.open && RoomFor(policy, pending, records, disk) && disk.written
  }

  /** What an append asks for, in plain arithmetic: a sound batch of records of at most 64 KiB that can
      be encoded; a log, a disk and a probe that work within 64 bits; an entry that, with at most ten
      bytes before it, is no longer than a segment; and, once it takes whole blocks, the room for
      copying two segments or the largest file left in the budget and, beside the reserve, on the file
      system. */
  lemma StorableExactly(policy: Policy, pending: nat, records: seq<Record>, now: int, disk: Disk)
    ensures Storable(policy, pending, records, now, disk) <==>
      && records != [] && now > 0 && (forall r <- records :: 0 < r.size <= 65536)
      && disk.framing.Some? && disk.open && disk.written && disk.space.Some?
      && var size := Bytes(records) + disk.framing.value + 10;
         var space, segment := disk.space.value, policy.segmentBytes as int;
         && 0 <= segment && size <= segment && 0 <= policy.minFreeBytes as int
         && space.largestFileBytes <= MAX_INT64 && 0 < space.blockBytes <= MAX_INT64
         && var copy := Rounded(2 * segment, space.blockBytes);
            var room := Rounded(size, space.blockBytes) +
                        if copy > space.largestFileBytes then copy else space.largestFileBytes;
            && pending + space.overhead + room <= policy.capacityBytes as int
            && policy.minFreeBytes as int + room <= space.freeBytes
            && policy.minFreeBytes as int + room <= MAX_INT64
  {
  }

  /** The usage a scan of the whole log finds. */
  function Measure(entries: seq<Entry>): Usage {
    Usage(|entries|, |Records(entries)|, Bytes(Records(entries)),
          if entries == [] then None else Some(entries[0].enqueuedAt))
  }

  /** The usage after one more entry. */
  function Grow(usage: Usage, e: Entry): Usage {
    Usage(usage.entries + 1, usage.records + |e.records|, usage.bytes + Bytes(e.records),
          if usage.entries == 0 then Some(e.enqueuedAt) else usage.oldest)
  }

  predicate AllSound(entries: seq<Entry>) {
    forall e <- entries :: e.Sound()
  }

  /** How many entries from the front fill a batch of `limit` records: as many as fit, but at
      least one, because an entry is never split. */
  predicate Fills(entries: seq<Entry>, limit: int, count: nat) {
    && 1 <= count <= |entries|
    && (count == 1 || |Records(entries[..count])| <= limit)
    && (count == |entries| || |Records(entries[..count + 1])| > limit)
  }

  /** The batch made of the first `count` entries of a log that starts at `first`. */
  function Front(first: nat, entries: seq<Entry>, count: nat): QueuedBatch
    requires 1 <= count <= |entries|
  {
    var records := Records(entries[..count]);
    QueuedBatch(records, first + count - 1, Bytes(records))
  }

  /** The batch came from `Read` on this log, to which entries may have been appended since. */
  ghost predicate Genuine(first: nat, entries: seq<Entry>, batch: QueuedBatch) {
    exists count: nat :: IsFront(first, entries, batch, count)
  }

  predicate IsFront(first: nat, entries: seq<Entry>, batch: QueuedBatch, count: nat) {
    1 <= count <= |entries| && batch == Front(first, entries, count)
  }

  // ---- Facts about concatenated entries ----------------------------------------------------

  lemma {:induction false} BytesConcat(a: seq<Record>, b: seq<Record>)
    ensures Bytes(a + b) == Bytes(a) + Bytes(b)
  {
    if b == [] {
      assert a + b == a;
    } else {
      var n := |b| - 1;
      assert (a + b)[..|a + b| - 1] == a + b[..n];
      BytesConcat(a, b[..n]);
    }
  }

  lemma {:induction false} RecordsConcat(a: seq<Entry>, b: seq<Entry>)
    ensures Records(a + b) == Records(a) + Records(b)
  {
    if b == [] {
      assert a + b == a;
    } else {
      var n := |b| - 1;
      assert (a + b)[..|a + b| - 1] == a + b[..n];
      RecordsConcat(a, b[..n]);
    }
  }

  lemma {:induction false} BytesAtLeast(records: seq<Record>)
    requires forall r <- records :: r.size > 0
    ensures Bytes(records) >= |records|
  {
    if records == [] {
    } else {
      BytesAtLeast(records[..|records| - 1]);
      assert records[|records| - 1] in records;
    }
  }

  lemma {:induction false} SoundIsPositive(entries: seq<Entry>)
    requires AllSound(entries)
    ensures |Records(entries)| >= |entries|
    ensures Bytes(Records(entries)) >= |Records(entries)|
  {
    if entries == [] {
    } else {
      var n := |entries| - 1;
      SoundIsPositive(entries[..n]);
      assert entries[n].Sound();
      BytesAtLeast(entries[n].records);
      BytesConcat(Records(entries[..n]), entries[n].records);
    }
  }

  /** The usage of a log is the sum of the usages of its parts. */
  lemma MeasureSplit(entries: seq<Entry>, count: nat)
    requires count <= |entries|
    ensures Records(entries) == Records(entries[..count]) + Records(entries[count..])
    ensures Bytes(Records(entries)) == Bytes(Records(entries[..count])) + Bytes(Records(entries[count..]))
  {
    assert entries == entries[..count] + entries[count..];
    RecordsConcat(entries[..count], entries[count..]);
    BytesConcat(Records(entries[..count]), Records(entries[count..]));
  }

  /** At most one number of entries fills a batch, so `Read` is determined by the log and the limit. */
  lemma FillsIsUnique(entries: seq<Entry>, limit: int, a: nat, b: nat)
    requires AllSound(entries)
    requires Fills(entries, limit, a) && Fills(entries, limit, b)
    ensures a == b
  {
    if a < b {
      MorePrefix(entries, a + 1, b);
    } else if b < a {
      MorePrefix(entries, b + 1, a);
    }
  }

  /** What one more entry adds to the records read so far. */
  lemma NextEntry(entries: seq<Entry>, count: nat)
    requires AllSound(entries) && count < |entries|
    ensures Records(entries[..count + 1]) == Records(entries[..count]) + entries[count].records
    ensures Bytes(Records(entries[..count + 1])) == Bytes(Records(entries[..count])) + Bytes(entries[count].records)
    ensures |entries[count].records| > 0
  {
    assert entries[..count + 1][..count] == entries[..count];
    BytesConcat(Records(entries[..count]), entries[count].records);
    assert entries[count].Sound();
  }

  lemma MorePrefix(entries: seq<Entry>, a: nat, b: nat)
    requires a <= b <= |entries|
    ensures |Records(entries[..a])| <= |Records(entries[..b])|
  {
    MeasureSplit(entries[..b], a);
    assert entries[..b][..a] == entries[..a];
  }

  /** Read takes as many entries as possible: the batch is one entry, or holds the greatest number of
      entries from the front whose records are within the limit. */
  lemma FillsIsLongest(entries: seq<Entry>, limit: int, count: nat)
    ensures Fills(entries, limit, count) <==>
      && 1 <= count <= |entries|
      && forall n :: 1 <= n <= |entries| ==> (n <= count <==> n == 1 || |Records(entries[..n])| <= limit)
  {
    if Fills(entries, limit, count) {
      forall n | 1 <= n <= |entries| ensures n <= count <==> n == 1 || |Records(entries[..n])| <= limit {
        if n <= count { MorePrefix(entries, n, count); } else { MorePrefix(entries, count + 1, n); }
      }
    }
  }

  /** A scan counts the entries, their records and the records' sizes, and knows when the first entry
      was appended. */
  lemma MeasureCons(e: Entry, rest: seq<Entry>)
    ensures Measure([]) == Usage(0, 0, 0, None)
    ensures Measure([e] + rest) == Usage(1 + Measure(rest).entries, |e.records| + Measure(rest).records,
                                         Bytes(e.records) + Measure(rest).bytes, Some(e.enqueuedAt))
  {
    RecordsConcat([e], rest);
    assert [e][..0] == [] && Records([e]) == e.records;
    BytesConcat(e.records, Records(rest));
    assert ([e] + rest)[0] == e;
  }

  lemma BytesCons(r: Record, rest: seq<Record>)
    ensures Bytes([]) == 0 && Bytes([r] + rest) == r.size + Bytes(rest)
  {
    assert [r][..0] == [];
    BytesConcat([r], rest);
  }

  /** The usage after the entries of a batch have gone; `oldest` belongs to the next entry. */
  function Shrink(usage: Usage, sequences: nat, batch: QueuedBatch, oldest: Option<int>): Usage
    requires sequences <= usage.entries && |batch.records| <= usage.records && 0 <= batch.bytes <= usage.bytes
  {
    Usage(usage.entries - sequences, usage.records - |batch.records|, usage.bytes - batch.bytes, oldest)
  }

  /** What the commit checks finds right about a batch that was read from the log. */
  lemma CommitMatches(first: nat, entries: seq<Entry>, batch: QueuedBatch)
    requires AllSound(entries) && Genuine(first, entries, batch)
    ensures first <= batch.lastSequence < first + |entries|
    ensures batch.records != [] && batch.bytes > 0
    ensures var count, usage := batch.lastSequence - first + 1, Measure(entries);
      && count <= usage.entries && |batch.records| <= usage.records && batch.bytes <= usage.bytes
      && AllSound(entries[count..])
      && Measure(entries[count..]) ==
         Shrink(usage, count, batch, if count < |entries| then Some(entries[count].enqueuedAt) else None)
  {
    var count: nat :| IsFront(first, entries, batch, count);
    MeasureSplit(entries, count);
    SoundIsPositive(entries[..count]);
  }

  // ---- Reading a batch from the front ------------------------------------------------------

  /** A read of `count` entries looks at the entry: it is part of the batch, or the one the batch
      stops before. */
  predicate LooksAt(entries: seq<Entry>, limit: int, count: nat, i: nat) {
    i < count || (i == count < |entries| && |Records(entries[..count])| < limit)
  }

  /** A read of `count` entries finds every entry it looks at in order. */
  ghost predicate Undamaged(entries: seq<Entry>, limit: int, count: nat, readable: nat -> bool) {
    forall i: nat :: LooksAt(entries, limit, count, i) ==> readable(i)
  }

  /** The batch holds the entries from the front that fill `limit` records, all read in order. */
  ghost predicate IsRead(first: nat, entries: seq<Entry>, limit: int, readable: nat -> bool,
                         batch: QueuedBatch, count: nat)
  {
    Fills(entries, limit, count) && Undamaged(entries, limit, count, readable) && IsFront(first, entries, batch, count)
  }

  /** A damaged entry keeps the batch from being filled. */
  ghost predicate Blocked(entries: seq<Entry>, limit: int, readable: nat -> bool) {
    forall count: nat :: Fills(entries, limit, count) ==> !Undamaged(entries, limit, count, readable)
  }

  lemma FillsBeyond(entries: seq<Entry>, limit: int, k: nat, readable: nat -> bool)
    requires k < |entries| && |Records(entries[..k])| < limit && !readable(k)
    ensures Blocked(entries, limit, readable)
  {
    forall count: nat | Fills(entries, limit, count) ensures !Undamaged(entries, limit, count, readable) {
      if count < k {
        MorePrefix(entries, count + 1, k);
      }
      assert LooksAt(entries, limit, count, k);
    }
  }

  /** The batch ends before an entry that no longer fits. */
  lemma StopsBefore(entries: seq<Entry>, limit: int, count: nat, readable: nat -> bool)
    requires AllSound(entries) && 0 < count < |entries|
    requires forall i: nat :: i <= count ==> readable(i)
    requires var held := |Records(entries[..count])|; held < limit < held + |entries[count].records|
    ensures Fills(entries, limit, count) && Undamaged(entries, limit, count, readable)
  {
    NextEntry(entries, count);
  }

  /** The batch ends behind the entry that fills it, or at the end of the log. */
  lemma StopsBehind(entries: seq<Entry>, limit: int, count: nat, readable: nat -> bool)
    requires AllSound(entries) && 0 < count <= |entries|
    requires count == 1 || |Records(entries[..count])| <= limit
    requires forall i: nat :: i < count ==> readable(i)
    requires |Records(entries[..count])| >= limit || count == |entries|
    ensures Fills(entries, limit, count) && Undamaged(entries, limit, count, readable)
  {
    if count < |entries| { NextEntry(entries, count); }
  }

  lemma CollectedIsRead(first: nat, entries: seq<Entry>, limit: int, count: nat, records: seq<Record>, bytes: nat,
                        readable: nat -> bool)
    requires Fills(entries, limit, count) && Undamaged(entries, limit, count, readable)
    requires records == Records(entries[..count]) && bytes == Bytes(records)
    ensures IsRead(first, entries, limit, readable, QueuedBatch(records, first + count - 1, bytes), count)
  {
  }

  /** Collects the entries that fill one batch. */
  method Collect(first: nat, entries: seq<Entry>, limit: int, readable: nat -> bool)
    returns (r: Result<QueuedBatch, QueueError>, ghost count: nat)
    requires AllSound(entries) && limit > 0 && entries != []
    ensures r.Success? ==> IsRead(first, entries, limit, readable, r.value, count)
    ensures r.Failure? ==> r == Failure(IO) && Blocked(entries, limit, readable)
  {
    var records, i, bytes := [], 0, 0;
    while true
      invariant 0 <= i < |entries|
      invariant records == Records(entries[..i]) && bytes == Bytes(records)
      invariant |records| < limit && (|records| > 0 || i == 0)
      invariant forall k: nat :: k < i ==> readable(k)
      decreases |entries| - i
    {
      NextEntry(entries, i);
      if !readable(i) {
        FillsBeyond(entries, limit, i, readable);
        return Failure(IO), 0;
      }
      var entry := entries[i];
      if |records| > 0 && |records| + |entry.records| > limit {
        StopsBefore(entries, limit, i, readable);
        break;
      }
      records, bytes, i := records + entry.records, bytes + Bytes(entry.records), i + 1;
      assert records == Records(entries[..i]) && bytes == Bytes(records);
      if |records| >= limit || i == |entries| {
        StopsBehind(entries, limit, i, readable);
        break;
      }
    }
    CollectedIsRead(first, entries, limit, i, records, bytes, readable);
    count := i;
    r := Success(QueuedBatch(records, first + i - 1, bytes));
  }

  // ---- The queue ---------------------------------------------------------------------------

  /** The entries of a log that decode, in order. */
  function Entries(log: seq<Stored>): seq<Entry> {
    if log == [] then [] else
    var last := log[|log| - 1];
    Entries(log[..|log| - 1]) + if last.Decodes() then [last.entry] else []
  }

  lemma {:induction false} EntriesConcat(a: seq<Stored>, b: seq<Stored>)
    ensures Entries(a + b) == Entries(a) + Entries(b)
    ensures |Entries(a)| <= |a|
    ensures (forall i :: 0 <= i < |a| ==> a[i].Decodes()) ==> |Entries(a)| == |a|
    ensures AllSound(Entries(a))
    decreases |a| + |b|
  {
    if a == [] && b == [] {
    } else if b == [] {
      assert a + b == a;
      EntriesConcat(a[..|a| - 1], []);
    } else {
      var n := |b| - 1;
      assert (a + b)[..|a + b| - 1] == a + b[..n];
      EntriesConcat(a, b[..n]);
    }
  }

  /** The log can be opened: every entry decodes and the usage fits 64-bit counters. */
  predicate Openable(log: seq<Stored>) {
    (forall i :: 0 <= i < |log| ==> log[i].Decodes()) && Fits(Measure(Entries(log)))
  }

  predicate Fits(usage: Usage) {
    usage.entries <= MAX_INT64 && usage.records <= MAX_INT64 && usage.bytes <= MAX_INT64
  }

  /** Where there is room for a batch, the records and all that is pending stay within 64 bits. */
  lemma RoomBounds(policy: Policy, pending: nat, records: seq<Record>, disk: Disk)
    requires disk.framing.Some? && RoomFor(policy, pending, records, disk)
    ensures pending + Bytes(records) <= MAX_INT64
  {
    var storage, size := Probe(pending, disk.space).value, EncodedSize(records, disk);
    assert policy.LeavesRoom(storage, Rounded(size, storage.blockBytes as int));
    assert policy.Recovery(storage) >= 0;
  }

  lemma MeasureSnoc(entries: seq<Entry>, e: Entry)
    ensures Records(entries + [e]) == Records(entries) + e.records
    ensures Measure(entries + [e]) == Grow(Measure(entries), e)
  {
    assert (entries + [e])[..|entries|] == entries;
    BytesConcat(Records(entries), e.records);
  }

  /** The usage of the first `i` log entries. */
  function Scan(log: seq<Stored>, i: nat): Usage
    requires i <= |log|
  {
    Measure(Entries(log[..i]))
  }

  /** Adding the entry would overflow a counter, in the form that cannot overflow itself. */
  predicate Overflows(usage: Usage, e: Entry) {
    usage.entries == MAX_INT64 || |e.records| > MAX_INT64 - usage.records || Bytes(e.records) > MAX_INT64 - usage.bytes
  }

  /** One step of the scan: what the next entry adds, and that the rest only adds more. */
  lemma ScanStep(log: seq<Stored>, i: nat)
    requires i < |log| && log[i].Decodes() && Fits(Scan(log, i))
    ensures Scan(log, i + 1) == Grow(Scan(log, i), log[i].entry)
    ensures Overflows(Scan(log, i), log[i].entry) <==> !Fits(Scan(log, i + 1))
    ensures Fits(Scan(log, |log|)) ==> Fits(Scan(log, i + 1))
  {
    assert log[..i + 1][..i] == log[..i];
    MeasureSnoc(Entries(log[..i]), log[i].entry);
    ScanRest(log, i + 1);
  }

  /** The usage of a prefix of the log is at most that of the whole. */
  lemma ScanRest(log: seq<Stored>, i: nat)
    requires i <= |log|
    ensures Fits(Scan(log, |log|)) ==> Fits(Scan(log, i))
  {
    var all := Entries(log);
    assert log[..|log|] == log == log[..i] + log[i..];
    EntriesConcat(log[..i], log[i..]);
    assert Entries(log[..i]) == all[..|Entries(log[..i])|];
    MeasureSplit(all, |Entries(log[..i])|);
  }

  /** The log opens iff all of it decodes and the usage of all of it fits. */
  lemma ScanAll(log: seq<Stored>)
    ensures Scan(log, 0) == Usage(0, 0, 0, None) && Scan(log, |log|) == Measure(Entries(log))
    ensures Openable(log) <==> (forall i :: 0 <= i < |log| ==> log[i].Decodes()) && Fits(Scan(log, |log|))
  {
    assert log[..|log|] == log;
  }

  /** Scans a log when the queue is opened. */
  method MeasureEntries(log: seq<Stored>) returns (r: Result<Usage, QueueError>)
    ensures r.Success? <==> Openable(log)
    ensures r.Success? ==> r.value == Measure(Entries(log))
  {
    ScanAll(log);
    var usage := Usage(0, 0, 0, None);
    for i := 0 to |log|
      invariant forall j :: 0 <= j < i ==> log[j].Decodes()
      invariant usage == Scan(log, i) && Fits(usage)
    {
      if !log[i].Decodes() {
        return Failure(Damaged);
      }
      ScanStep(log, i);
      if Overflows(usage, log[i].entry) {
        return Failure(OutOfRange);
      }
      usage := Grow(usage, log[i].entry);
    }
    r := Success(usage);
  }

  class Queue {
    const policy: Policy
    var first: nat
    var entries: seq<Entry>
    var pending: Usage

    /** The cached usage is what a scan would find, and counters and sequence numbers fit their
        64 bits. */
    predicate Valid()
      reads this
    {
      && AllSound(entries) && pending == Measure(entries) && Fits(pending)
      && first >= 1 && first + |entries| <= MAX_UINT64 + 1
    }

    constructor (policy: Policy, log: seq<Stored>, first: nat, usage: Usage)
      requires Openable(log) && usage == Measure(Entries(log))
      requires first >= 1 && first + |log| <= MAX_UINT64 + 1
      ensures Valid() && this.policy == policy && this.first == first && entries == Entries(log)
    {
      EntriesConcat(log, []);
      this.policy, this.first, entries, pending := policy, first, Entries(log), usage;
    }

    /** The probe answers and the entry is no longer than a segment. */
    predicate FitsSegment(records: seq<Record>, disk: Disk)
      requires disk.framing.Some?
      reads this
    {
      InSegment(policy, Bytes(Records(entries)), records, disk)
    }

    /** The probe answers, and the policy finds room for the batch. */
    ghost predicate HasRoom(records: seq<Record>, disk: Disk)
      requires disk.framing.Some?
      reads this
    {
      RoomFor(policy, Bytes(Records(entries)), records, disk)
    }

    /** The queue takes the batch. */
    ghost predicate Takes(records: seq<Record>, now: int, disk: Disk)
      reads this
    {
      Storable(policy, Bytes(Records(entries)), records, now, disk) && first + |entries| <= MAX_UINT64
    }

    /** What the queue answers to an append: the first thing that stands against it. */
    ghost function Answer(records: seq<Record>, now: int, disk: Disk): Option<QueueError>
      reads this
    {
      if !Encodes(records, now, disk) then Some(InvalidBatch)
      else if !disk.open then Some(IO)
      else if first + |entries| > MAX_UINT64 then Some(Exhausted)
      else if Probe(Bytes(Records(entries)), disk.space) == None then Some(IO)
      else if !FitsSegment(records, disk) then Some(InvalidBatch)
      else if !HasRoom(records, disk) then Some(Full)
      else if !disk.written then Some(IO)
      else None
    }

    lemma AnswerIsNone(records: seq<Record>, now: int, disk: Disk)
      ensures Answer(records, now, disk) == None <==> Takes(records, now, disk)
    {
    }

    method Append(entry: Entry)
      requires Valid() && entry.Sound() && first + |entries| <= MAX_UINT64 && Fits(Grow(pending, entry))
      modifies this
      ensures Valid() && first == old(first) && entries == old(entries) + [entry]
    {
      MeasureSnoc(entries, entry);
      entries := entries + [entry];
      pending := Grow(pending, entry);
    }

    /** Asks the probe and the policy about one append. */
    method Admit(records: seq<Record>, disk: Disk) returns (r: Option<QueueError>)
      requires Valid() && disk.framing.Some?
      ensures r == None <==> HasRoom(records, disk)
      ensures r == Some(Full) <==> FitsSegment(records, disk) && !HasRoom(records, disk)
      ensures r == Some(IO) <==> Probe(pending.bytes, disk.space) == None
      ensures r == Some(InvalidBatch) <==>
        Probe(pending.bytes, disk.space).Some? && !FitsSegment(records, disk)
    {
      var storage := Probe(pending.bytes, disk.space);
      if storage.None? {
        return Some(IO);
      }
      var size := EncodedSize(records, disk);
      if size > policy.segmentBytes as int {
        return Some(InvalidBatch);
      }
      AllocationIsRounded(size as int64, storage.value.blockBytes);
      var growth := AllocationSize(size as int64, storage.value.blockBytes);
      if growth.None? {
        return Some(Full);
      }
      policy.AdmitsIsExact(storage.value, growth.value);
      return if policy.Admits(storage.value, growth.value) then None else Some(Full);
    }

    /** An admitted batch cannot overflow the counters: its bytes fit the budget together with all
        that is pending, and there are at least as many bytes as records and as entries. */
    lemma AdmittedFits(records: seq<Record>, now: int, disk: Disk)
      requires Valid() && Encodes(records, now, disk) && HasRoom(records, disk)
      ensures Fits(Grow(pending, Entry(records, now)))
    {
      var entry := Entry(records, now);
      MeasureSnoc(entries, entry);
      SoundIsPositive(entries + [entry]);
      RoomBounds(policy, Bytes(Records(entries)), records, disk);
    }

    /** Appends one batch as one entry, or refuses it and changes nothing. */
    method Write(records: seq<Record>, now: int, disk: Disk) returns (r: Option<QueueError>)
      requires Valid()
      modifies this
      ensures Valid() && first == old(first)
      ensures r == None <==> old(Takes(records, now, disk))
      ensures entries == if r == None then old(entries) + [Entry(records, now)] else old(entries)
      ensures r == old(Answer(records, now, disk))
    {
      var entry := Entry(records, now);
      if records == [] || !entry.Sound() || disk.framing == None {
        return Some(InvalidBatch);
      }
      if !disk.open {
        return Some(IO);
      }
      var last := first + |entries| - 1;
      if last == MAX_UINT64 {
        return Some(Exhausted);
      }
      var refused := Admit(records, disk);
      if refused != None {
        return refused;
      }
      if !disk.written {
        return Some(IO);
      }
      AdmittedFits(records, now, disk);
      Append(entry);
      return None;
    }

    /** Reads, without removing anything, the entries from the front that fill `limit` records.
        `open` and `readable` say whether the log answers and which entries can be read back. */
    method Read(limit: int, open: bool, readable: nat -> bool) returns (r: Result<QueuedBatch, QueueError>)
      requires Valid()
      ensures r.Success? ==> exists count: nat :: IsRead(first, entries, limit, readable, r.value, count)
      ensures r.Success? <==>
        && limit > 0 && open
        && exists count: nat :: Fills(entries, limit, count) && Undamaged(entries, limit, count, readable)
      ensures r == Failure(BadLimit) <==> limit <= 0
      ensures r == Failure(Empty) <==> limit > 0 && open && entries == []
      ensures r.Success? || r in {Failure(BadLimit), Failure(Empty), Failure(IO)}
    {
      if limit <= 0 {
        return Failure(BadLimit);
      }
      if !open {
        return Failure(IO);
      }
      if entries == [] {
        return Failure(Empty);
      }
      ghost var count;
      r, count := Collect(first, entries, limit, readable);
    }

    /** The checks of a commit, which change nothing. */
    method CheckCommit(batch: QueuedBatch, open: bool, next: bool, truncated: bool) returns (r: Option<QueueError>)
      requires Valid()
      ensures r == None ==>
        && first <= batch.lastSequence < first + |entries| && batch.lastSequence != MAX_UINT64
        && |batch.records| <= pending.records && 0 <= batch.bytes <= pending.bytes
      ensures Genuine(first, entries, batch) ==>
        (r == None <==>
           && batch.lastSequence != MAX_UINT64 && open && truncated
           && (batch.lastSequence + 1 < first + |entries| ==> next))
    {
      if !open {
        return Some(IO);
      }
      var last := first + |entries| - 1;
      if Genuine(first, entries, batch) {
        CommitMatches(first, entries, batch);
      }
      if batch.lastSequence < first || batch.lastSequence > last {
        return Some(Inconsistent);
      }
      if batch.lastSequence == MAX_UINT64 {
        return Some(Exhausted);
      }
      var sequences := batch.lastSequence - first + 1;
      if sequences > MAX_INT64 || batch.records == [] || batch.bytes <= 0 {
        return Some(Inconsistent);
      }
      if sequences > pending.entries || |batch.records| > pending.records || batch.bytes > pending.bytes {
        return Some(Inconsistent);
      }
      if sequences < pending.entries && !next {
        return Some(IO);
      }
      return if truncated then None else Some(IO);
    }

    /** Removes the entries of a published batch from the front: `next` says whether the entry that
        becomes the first can be read, `truncated` whether the log could be cut.  A batch that
        `Read` returned is accepted if the log does its part, unless its last number is the
        largest there is. */
    method Commit(batch: QueuedBatch, open: bool, next: bool, truncated: bool) returns (r: Option<QueueError>)
      requires Valid()
      modifies this
      ensures r != None ==> first == old(first) && entries == old(entries) && pending == old(pending)
      ensures r == None ==>
        && old(first) <= batch.lastSequence < old(first + |entries|)
        && first == batch.lastSequence + 1
        && entries == old(entries)[first - old(first)..]
      ensures Genuine(old(first), old(entries), batch) ==>
        && Valid()
        && (r == None <==>
              && batch.lastSequence != MAX_UINT64 && open && truncated
              && (batch.lastSequence + 1 < old(first + |entries|) ==> next))
    {
      var refused := CheckCommit(batch, open, next, truncated);
      if refused != None {
        return refused;
      }
      if Genuine(first, entries, batch) {
        CommitMatches(first, entries, batch);
      }
      var sequences := batch.lastSequence - first + 1;
      pending := Shrink(pending, sequences, batch,
                        if sequences < |entries| then Some(entries[sequences].enqueuedAt) else None);
      entries := entries[sequences..];
      first := batch.lastSequence + 1;
      return None;
    }

    /** The pending records and bytes, from the cached usage. */
    method Pending() returns (records: nat, bytes: nat)
      requires Valid()
      ensures records == |Records(entries)| && bytes == Bytes(Records(entries))
      ensures records == 0 <==> entries == []
    {
      SoundIsPositive(entries);
      return pending.records, pending.bytes;
    }
  }

  /** The largest sequence number is not kept in reserve: an entry can be appended under it, and
      that entry can be read and published for ever but never committed. */
  method LastNumberSticks(policy: Policy, e: Entry, disk: Disk, next: bool, truncated: bool)
    returns (written: bool, published: seq<Record>, committed: bool)
    ensures written <==> Storable(policy, 0, e.records, e.enqueuedAt, disk)
    ensures written ==> published == e.records && !committed
  {
    var queue := new Queue(policy, [], MAX_UINT64, Usage(0, 0, 0, None));
    var refused := queue.Write(e.records, e.enqueuedAt, disk);
    written, published, committed := refused == None, [], false;
    if written {
      assert queue.entries == [e] && queue.first == MAX_UINT64;
      var read := queue.Read(1, true, _ => true);
      OnlyEntry(MAX_UINT64, e, 1);
      var error := queue.Commit(read.value, true, next, truncated);
      published, committed := read.value.records, error == None;
    }
  }

  lemma OnlyEntry(first: nat, e: Entry, limit: int)
    requires e.Sound() && limit > 0
    ensures Fills([e], limit, 1)
    ensures forall batch, count :: IsFront(first, [e], batch, count) ==>
      batch.records == e.records && batch.lastSequence == first && Genuine(first, [e], batch)
  {
    MeasureSnoc([], e);
    assert [e][..1] == [] + [e];
  }

  /** Opens a queue over an existing log, or refuses a log it could not replay completely.
      `prepared` says whether directory, lock and log could be opened, `probed` whether the storage
      could be measured. */
  method Open(policy: Policy, log: seq<Stored>, first: nat, prepared: bool, probed: bool) returns (queue: Queue?)
    requires first >= 1 && first + |log| <= MAX_UINT64 + 1
    ensures queue != null <==> prepared && Openable(log) && probed
    ensures queue != null ==> fresh(queue) && queue.Valid() && queue.policy == policy
    ensures queue != null ==> queue.first == first && queue.entries == Entries(log) && |queue.entries| == |log|
  {
    if !prepared {
      return null;
    }
    var usage := MeasureEntries(log);
    if usage.Failure? {
      return null;
    }
    if !probed {
      return null;
    }
    queue := new Queue(policy, log, first, usage.value);
    EntriesConcat(log, []);
  }

  /** A batch read from a queue stays genuine while other batches are appended. */
  lemma GenuineSurvivesAppend(first: nat, entries: seq<Entry>, more: seq<Entry>, batch: QueuedBatch)
    requires Genuine(first, entries, batch)
    ensures Genuine(first, entries + more, batch)
  {
    var count: nat :| IsFront(first, entries, batch, count);
    assert (entries + more)[..count] == entries[..count];
    assert IsFront(first, entries + more, batch, count);
  }
}
