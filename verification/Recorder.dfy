/** The request recorder run by one caller at a time, over the real gate, disk queue and client
    objects.  Each call is a path of the recorder's protocol, which the object carries along as
    ghost state. */
module Recorder {
  import opened Wrappers
  import opened Gate
  import opened DiskQueue
  import opened Kafka
  import opened RecorderProtocol
  import opened Recovery
  import opened SerialRuns

  datatype ReplayResult = ReplayIdle | ReplayCommitted | ReplayRetry | ReplayPaused

  /** How the disk queue's log answers during one replay: to the read (does it answer, and which
      entries can be read back), and to the commit (does it answer, can the next entry be read, can
      the front be cut off). */
  datatype LogAnswers = LogAnswers(open: bool, readable: nat -> bool, stillOpen: bool, next: bool, truncated: bool)

  /** A refusal for lack of room, or of a batch, does not speak against the storage. */
  predicate Available(answer: Option<QueueError>) {
    answer == None || answer == Some(Full) || answer == Some(InvalidBatch)
  }

  /** What does speak against it: a batch that could be encoded met a log that does not answer or has no
      number left, a probe that fails, or, where there was room, a write that fails. */
  lemma UnavailableMeans(queue: Queue, records: seq<Record>, now: int, disk: Disk)
    ensures !Available(queue.Answer(records, now, disk)) <==>
      && Encodes(records, now, disk)
      && (|| !disk.open || queue.first + |queue.entries| > MAX_UINT64
          || Probe(Bytes(Records(queue.entries)), disk.space) == None
          || (queue.HasRoom(records, disk) && !disk.written))
  {
  }

  // ---- The records of a batch in Kafka's log -----------------------------------------------

  /** Each of the records is in the log, as often as the batch holds it. */
  predicate Within(log: seq<Record>, records: seq<Record>) {
    multiset(records) <= multiset(log)
  }

  lemma WithinEither(a: seq<Record>, b: seq<Record>, records: seq<Record>)
    requires Within(a, records) || Within(b, records)
    ensures Within(a + b, records)
  {
    assert multiset(a + b) == multiset(a) + multiset(b);
  }

  /** Each entry's records are among those of all entries. */
  lemma {:induction false} EntryWithin(entries: seq<Entry>, i: nat)
    requires i < |entries|
    ensures Within(Records(entries), entries[i].records)
  {
    var n := |entries| - 1;
    if i == n {
    } else {
      EntryWithin(entries[..n], i);
    }
    WithinEither(Records(entries[..n]), entries[n].records, entries[i].records);
  }

  /** The queue's entries are the protocol's batches, in order. */
  predicate Holds(batches: map<Id, seq<Record>>, wal: seq<Id>, entries: seq<Entry>) {
    |wal| == |entries| && forall i :: 0 <= i < |wal| ==> wal[i] in batches && batches[wal[i]] == entries[i].records
  }

  /** The confirmed batches are in Kafka's log. */
  predicate Confirms(batches: map<Id, seq<Record>>, acked: set<Id>, log: seq<Record>) {
    forall w <- acked :: w in batches && Within(log, batches[w])
  }

  lemma ConfirmsLonger(batches: map<Id, seq<Record>>, acked: set<Id>, log: seq<Record>, after: seq<Record>)
    requires Confirms(batches, acked, log)
    ensures Confirms(batches, acked, log + after)
  {
    forall w <- acked ensures w in batches && Within(log + after, batches[w]) {
      WithinEither(log, after, batches[w]);
    }
  }

  lemma HoldsNew(batches: map<Id, seq<Record>>, wal: seq<Id>, entries: seq<Entry>, w: Id, entry: Entry)
    requires Holds(batches, wal, entries) && w !in batches
    ensures Holds(batches[w := entry.records], wal, entries)
    ensures Holds(batches[w := entry.records], wal + [w], entries + [entry])
  {
  }

  lemma ConfirmsNew(batches: map<Id, seq<Record>>, acked: set<Id>, log: seq<Record>, w: Id,
                    records: seq<Record>, appended: seq<Record>)
    requires Confirms(batches, acked, log) && w !in batches
    ensures Confirms(batches[w := records], acked, log + appended)
    ensures appended == records ==> Confirms(batches[w := records], acked + {w}, log + appended)
  {
    ConfirmsLonger(batches, acked, log, appended);
    WithinEither(log, appended, appended);
  }

  /** Publishing entries from the front of the queue confirms their batches. */
  lemma ConfirmsFront(batches: map<Id, seq<Record>>, wal: seq<Id>, entries: seq<Entry>, count: nat,
                      acked: set<Id>, log: seq<Record>)
    requires Holds(batches, wal, entries) && count <= |wal| && Confirms(batches, acked, log)
    ensures Confirms(batches, acked + Elements(wal[..count]), log + Records(entries[..count]))
  {
    var front := Records(entries[..count]);
    ConfirmsLonger(batches, acked, log, front);
    forall w <- Elements(wal[..count]) ensures w in batches && Within(log + front, batches[w]) {
      var i :| 0 <= i < count && wal[i] == w;
      EntryWithin(entries[..count], i);
      WithinEither(log, front, batches[w]);
    }
  }

  /** The commit of the first `count` entries goes through. */
  predicate Commits(first: nat, entries: seq<Entry>, count: nat, answers: LogAnswers) {
    && answers.stillOpen && answers.truncated && (count < |entries| ==> answers.next)
    && first + count != MAX_UINT64 + 1
  }

  /** The front batch holds `count` entries, and the log gives them all. */
  ghost predicate ReadsFront(entries: seq<Entry>, limit: int, answers: LogAnswers, count: nat) {
    && limit > 0 && answers.open
    && Fills(entries, limit, count) && Undamaged(entries, limit, count, answers.readable)
  }

  /** What a replay returns when Kafka reports `error` for the batch. */
  function Replayed(error: Option<PublishClass>, commits: bool): ReplayResult {
    if error == None && commits then ReplayCommitted
    else if error == Some(Permanent) then ReplayPaused
    else ReplayRetry
  }

  lemma FrontIsGenuine(first: nat, entries: seq<Entry>, batch: QueuedBatch, count: nat)
    requires IsFront(first, entries, batch, count)
    ensures Genuine(first, entries, batch)
    ensures batch.lastSequence == first + count - 1
    ensures |Records(entries)| == |batch.records| + |Records(entries[count..])|
  {
    MeasureSplit(entries, count);
  }

  /** No other number of entries is the front batch. */
  lemma OneFront(entries: seq<Entry>, limit: int, answers: LogAnswers, count: nat)
    requires AllSound(entries) && ReadsFront(entries, limit, answers, count)
    ensures forall other: nat :: ReadsFront(entries, limit, answers, other) ==> other == count
  {
    forall other: nat | ReadsFront(entries, limit, answers, other) ensures other == count {
      FillsIsUnique(entries, limit, other, count);
    }
  }

  // ---- The protocol's state and the objects ------------------------------------------------

  /** A quiet state that the protocol reaches shows the gate, the queue's entries and Kafka's log;
      numbers from `next` on have named no batch yet. */
  ghost predicate Mirrors(s: State, batches: map<Id, seq<Record>>, next: Id, gate: Gate,
                          entries: seq<Entry>, log: seq<Record>)
  {
    && Inv(s) && Quiet(s)
    && s.gate == gate
    && Holds(batches, s.wal, entries)
    && Confirms(batches, s.acked, log)
    && s.accepted <= batches.Keys
    && (forall w <- s.before :: w < next) && (forall w <- batches :: w < next)
  }

  lemma MirrorsStart(entries: seq<Entry>, log: seq<Record>)
    ensures var ids := seq(|entries|, i => i);
      var batches := map w | 0 <= w < |entries| :: entries[w].records;
      Mirrors(Start(ids), batches, |entries|, Gate.Initial(entries != []), entries, log)
  {
    var ids := seq(|entries|, i => i);
    RunInv(ids, []);
  }

  /** One `Write` that runs by itself, seen from both sides. */
  lemma MirrorWrite(s: State, batches: map<Id, seq<Record>>, w: Id, gate: Gate, entries: seq<Entry>, log: seq<Record>,
                    entry: Entry, compliant: bool, told: bool, stored: bool, available: bool, appended: seq<Record>)
    returns (t: State)
    requires Mirrors(s, batches, w, gate, entries, log) && (stored ==> available)
    requires Direct(gate, compliant, told) ==> appended == entry.records
    ensures Leads(s, t)
    ensures var entries' := if !Direct(gate, compliant, told) && stored then entries + [entry] else entries;
      Mirrors(t, batches[w := entry.records], w + 1, AfterWrite(gate, compliant, told, available),
              entries', log + appended)
    ensures w in t.accepted <==> Direct(gate, compliant, told) || stored
  {
    assert w !in batches;
    t := WriteRun(s, w, compliant, told, stored, available);
    HoldsNew(batches, s.wal, entries, w, entry);
    ConfirmsNew(batches, s.acked, log, w, entry.records, appended);
  }

  /** One replay that runs by itself, up to the attempt to resume. */
  lemma MirrorReplay(s: State, batches: map<Id, seq<Record>>, next: Id, gate: Gate,
                     entries: seq<Entry>, log: seq<Record>, count: nat, ok: bool, permanent: bool,
                     committed: bool, appended: seq<Record>)
    returns (t: State)
    requires Mirrors(s, batches, next, gate, entries, log) && 1 <= count <= |entries|
    requires ok ==> appended == Records(entries[..count])
    ensures Leads(s, t) && t.accepted == s.accepted
    ensures var entries' := if ok && committed then entries[count..] else entries;
      Mirrors(t, batches, next, AfterReplay(gate, ok, permanent, committed), entries', log + appended)
  {
    t := ReplayRun(s, count, ok, permanent, committed);
    ConfirmsLonger(batches, s.acked, log, appended);
    if ok { ConfirmsFront(batches, s.wal, entries, count, s.acked, log); }
  }

  /** A step that only touches the gate. */
  lemma MirrorGate(s: State, batches: map<Id, seq<Record>>, next: Id, gate: Gate, entries: seq<Entry>, log: seq<Record>,
                   a: Action, gate': Gate)
    returns (t: State)
    requires Mirrors(s, batches, next, gate, entries, log) && (a.StartSpooling? || a.MarkQueue? || a.Resume?)
    requires gate' == match a
      case StartSpooling => gate.(spooling := true)
      case MarkQueue(ok) => gate.(queueOK := ok)
      case _ => gate.Resume(a.compliant, entries == [])
    ensures Leads(s, t) && t.accepted == s.accepted && Mirrors(t, batches, next, gate', entries, log)
  {
    t := GateRun(s, a);
  }

  // ---- What one `Write` does ---------------------------------------------------------------

  /** What the gate, the queue and Kafka hold. */
  datatype Snapshot = Snapshot(gate: Gate, entries: seq<Entry>, log: seq<Record>)

  /** The end of a reserved append, when the queue's answer to the entry is `answer`. */
  function AfterQueue(s: Snapshot, entry: Entry, answer: Option<QueueError>): Snapshot {
    s.(gate := s.gate.FinishQueue(Available(answer)),
       entries := if answer == None then s.entries + [entry] else s.entries)
  }

  /** An admitted delivery to Kafka, and the append if it fails. */
  function AfterKafka(s: Snapshot, entry: Entry, fate: Fate, answer: Option<QueueError>): Snapshot {
    var asked := s.(log := s.log + Appended(fate, entry.records));
    if Accepts(fate, entry.records) then asked.(gate := s.gate.CompleteKafka())
    else AfterQueue(asked.(gate := s.gate.FailKafka()), entry, answer)
  }

  function AfterCall(s: Snapshot, entry: Entry, compliant: bool, fate: Fate, answer: Option<QueueError>): Snapshot {
    var reserved := s.(gate := s.gate.Reserve(compliant));
    if s.gate.Choose(compliant).QueueTarget? then AfterQueue(reserved, entry, answer)
    else AfterKafka(reserved, entry, fate, answer)
  }

  /** The batch is accepted iff Kafka was asked and said yes, or the queue took it; queue, log and gate
      follow. */
  predicate Wrote(before: Snapshot, after: Snapshot, entry: Entry, compliant: bool, fate: Fate,
                  answer: Option<QueueError>, ok: bool)
  {
    var asked := compliant && !before.gate.spooling;
    var told := asked && Accepts(fate, entry.records);
    && ok == (told || answer == None)
    && after.entries == (if !told && ok then before.entries + [entry] else before.entries)
    && after.log == before.log + (if asked then Appended(fate, entry.records) else [])
    && after.gate == AfterWrite(before.gate, compliant, told, Available(answer))
  }

  lemma CallWrites(s: Snapshot, entry: Entry, compliant: bool, fate: Fate, answer: Option<QueueError>)
    ensures var told := compliant && !s.gate.spooling && Accepts(fate, entry.records);
      Wrote(s, AfterCall(s, entry, compliant, fate, answer), entry, compliant, fate, answer, told || answer == None)
  {
  }

  /** The replay of the first `count` entries: Kafka is given their records; if it confirms them all
      and the commit goes through they leave the queue, and otherwise the queue is as before. */
  predicate ReplayedFront(before: Snapshot, first: nat, after: Snapshot, count: nat, fate: Fate,
                          answers: LogAnswers, r: ReplayResult)
    requires count <= |before.entries|
  {
    var front := Records(before.entries[..count]);
    && r == Replayed(Delivered(fate, front).error, Commits(first, before.entries, count, answers))
    && after.entries == (if r == ReplayCommitted then before.entries[count..] else before.entries)
    && after.log == before.log + Appended(fate, front)
  }

  lemma ReplayedStays(before: Snapshot, first: nat, after: Snapshot, count: nat, fate: Fate,
                      answers: LogAnswers, r: ReplayResult, gate: Gate)
    requires count <= |before.entries| && ReplayedFront(before, first, after, count, fate, answers, r)
    ensures ReplayedFront(before, first, after.(gate := gate), count, fate, answers, r)
  {
  }

  /** No batch was given to Kafka. */
  predicate NothingReplayed(before: Snapshot, after: Snapshot, r: ReplayResult) {
    (r == ReplayIdle || r == ReplayRetry) && after.entries == before.entries && after.log == before.log
  }

  // ---- The recorder ------------------------------------------------------------------------

  class Recorder {
    const publisher: Client
    const state: RecorderState
    const queue: Queue

    var valid: nat
    var kafkaAccepted: nat
    var spooled: nat
    var replayed: nat
    var committed: nat
    var rejected: nat
    ghost var direct: nat      // records whose own write Kafka confirmed
    ghost const inherited: nat // records that were queued before this process started

    ghost var protocol: State                  // the protocol's state between two calls
    ghost var batches: map<Id, seq<Record>>    // the records of each of its batches
    ghost var nextId: Id

    /** The counters balance but for `n` received records that are on their way: every other record
        was confirmed directly, queued or rejected, every queued record was committed or is still
        pending, and Kafka confirmed at least what was written directly and what was replayed. */
    ghost predicate Owes(n: nat)
      reads this, queue
    {
      && valid == direct + spooled + rejected + n
      && inherited + spooled == committed + |Records(queue.entries)|
      && committed <= replayed && direct + replayed <= kafkaAccepted
    }

    ghost function Shows(): Snapshot
      reads this, state, queue, publisher
    {
      Snapshot(state.Value(), queue.entries, publisher.log)
    }

    ghost predicate Valid()
      reads this, state, queue, publisher
    {
      && queue.Valid() && Owes(0)
      && Mirrors(protocol, batches, nextId, state.Value(), queue.entries, publisher.log)
    }

    constructor (publisher: Client, queue: Queue)
      requires queue.Valid()
      ensures Valid() && this.publisher == publisher && this.queue == queue && fresh(state)
      ensures state.Value() == Gate.Initial(queue.entries != [])
    {
      var pending, _ := queue.Pending();
      this.publisher, this.queue := publisher, queue;
      state := new RecorderState(pending > 0);
      valid, kafkaAccepted, spooled, replayed, committed, rejected := 0, 0, 0, 0, 0, 0;
      direct, inherited := 0, |Records(queue.entries)|;
      protocol, nextId := Start(seq(|queue.entries|, i => i)), |queue.entries|;
      batches := map w | 0 <= w < |queue.entries| :: queue.entries[w].records;
      new;
      assert state.Value() == Gate.Initial(queue.entries != []);
      MirrorsStart(queue.entries, publisher.log);
    }

    /** At-least-once delivery, of the records themselves: of every batch that `Write` accepted, each
        record is in Kafka's log, or the batch makes an entry of the queue. */
    lemma AcceptedIsKept(w: Id)
      requires Valid() && w in protocol.accepted
      ensures w in batches
      ensures Within(publisher.log, batches[w]) || exists e <- queue.entries :: e.records == batches[w]
    {
      if w !in protocol.acked {
        var i :| 0 <= i < |protocol.wal| && protocol.wal[i] == w;
        assert queue.entries[i] in queue.entries;
      }
    }

    /** `answer` is what the queue will answer. */
    method WriteQueue(records: seq<Record>, now: int, disk: Disk, ghost answer: Option<QueueError>) returns (ok: bool)
      requires queue.Valid() && Owes(|records|) && answer == queue.Answer(records, now, disk)
      modifies this`spooled, this`rejected, state, queue
      ensures queue.Valid() && Owes(0) && queue.first == old(queue.first)
      ensures ok == (answer == None) && Shows() == AfterQueue(old(Shows()), Entry(records, now), answer)
    {
      MeasureSnoc(queue.entries, Entry(records, now));
      var error := queue.Write(records, now, disk);
      var available := error == None || error == Some(Full) || error == Some(InvalidBatch);
      var _ := state.FinishQueueWrite(available);
      if error != None {
        rejected := rejected + |records|;
        return false;
      }
      spooled := spooled + |records|;
      return true;
    }

    method WriteKafka(records: seq<Record>, fate: Fate, now: int, disk: Disk, ghost answer: Option<QueueError>)
      returns (ok: bool)
      requires queue.Valid() && Owes(|records|) && answer == queue.Answer(records, now, disk)
      modifies this`spooled, this`rejected, this`kafkaAccepted, this`direct, state, queue, publisher
      ensures queue.Valid() && Owes(0) && queue.first == old(queue.first)
      ensures ok == (Accepts(fate, records) || answer == None)
      ensures Shows() == AfterKafka(old(Shows()), Entry(records, now), fate, answer)
    {
      ReportTells(fate, records);
      var result := publisher.Publish(records, fate);
      if result.error == None {
        state.CompleteKafkaWrite();
        kafkaAccepted := kafkaAccepted + |records|;
        direct := direct + |records|;
        return true;
      }
      kafkaAccepted := kafkaAccepted + result.confirmed;
      var _ := state.FailKafkaWrite();
      ok := WriteQueue(records, now, disk, answer);
    }

    /** Admits one batch and sends it where it was admitted. */
    method Dispatch(records: seq<Record>, compliant: bool, fate: Fate, now: int, disk: Disk,
                    ghost answer: Option<QueueError>)
      returns (ok: bool)
      requires queue.Valid() && Owes(0) && answer == queue.Answer(records, now, disk)
      modifies this`valid, this`spooled, this`rejected, this`kafkaAccepted, this`direct
      modifies state, queue, publisher
      ensures queue.Valid() && Owes(0) && queue.first == old(queue.first)
      ensures ok == ((compliant && !old(state.spooling) && Accepts(fate, records)) || answer == None)
      ensures Shows() == AfterCall(old(Shows()), Entry(records, now), compliant, fate, answer)
    {
      valid := valid + |records|;
      var target := state.ReserveWriteTarget(compliant);
      if target == QueueTarget {
        ok := WriteQueue(records, now, disk, answer);
      } else {
        ok := WriteKafka(records, fate, now, disk, answer);
      }
    }

    /** Accepts one batch: Kafka first, or the disk queue behind the barrier or after a failure. */
    method Write(records: seq<Record>, compliant: bool, fate: Fate, now: int, disk: Disk) returns (ok: bool)
      requires Valid()
      modifies this, state, queue, publisher
      ensures Valid() && queue.first == old(queue.first)
      ensures records == [] ==> ok && Shows() == old(Shows()) && protocol == old(protocol)
      ensures records != [] ==>
        && Wrote(old(Shows()), Shows(), Entry(records, now), compliant, fate, old(queue.Answer(records, now, disk)), ok)
        && Leads(old(protocol), protocol)
        && batches == old(batches)[old(nextId) := records]
        && (ok <==> old(nextId) in protocol.accepted)
    {
      if records == [] {
        return true;
      }
      ghost var before, answer := Shows(), queue.Answer(records, now, disk);
      ok := Dispatch(records, compliant, fate, now, disk, answer);
      CallWrites(before, Entry(records, now), compliant, fate, answer);
      FollowWrite(before, Entry(records, now), compliant, fate, answer, ok);
    }

    /** Lets the protocol make the steps of one `Write`. */
    ghost method FollowWrite(before: Snapshot, entry: Entry, compliant: bool, fate: Fate,
                             answer: Option<QueueError>, ok: bool)
      requires Mirrors(protocol, batches, nextId, before.gate, before.entries, before.log)
      requires Wrote(before, Shows(), entry, compliant, fate, answer, ok)
      modifies this`protocol, this`batches, this`nextId
      ensures Mirrors(protocol, batches, nextId, state.Value(), queue.entries, publisher.log)
      ensures Leads(old(protocol), protocol) && batches == old(batches)[old(nextId) := entry.records]
      ensures old(nextId) in protocol.accepted <==> ok
    {
      var asked := compliant && !before.gate.spooling;
      ReportTells(fate, entry.records);
      protocol := MirrorWrite(protocol, batches, nextId, before.gate, before.entries, before.log, entry, compliant,
                              asked && Accepts(fate, entry.records), answer == None, Available(answer),
                              if asked then Appended(fate, entry.records) else []);
      batches, nextId := batches[nextId := entry.records], nextId + 1;
    }

    method Resume(compliant: bool)
      requires Valid()
      modifies this`protocol, state
      ensures Valid() && Leads(old(protocol), protocol) && protocol.accepted == old(protocol.accepted)
      ensures Shows() == old(Shows()).(gate := old(state.Value()).Resume(compliant, queue.entries == []))
    {
      var pending, _ := queue.Pending();
      var _ := state.ResumeKafkaWrites(compliant, pending == 0);
      protocol := MirrorGate(protocol, batches, nextId, old(state.Value()), queue.entries, publisher.log,
                             RecorderProtocol.Resume(compliant), state.Value());
    }

    method MarkQueue(ok: bool)
      requires Valid()
      modifies this`protocol, state
      ensures Valid() && Leads(old(protocol), protocol) && protocol.accepted == old(protocol.accepted)
      ensures state.Value() == old(state.Value()).(queueOK := ok)
    {
      state.SetQueueOK(ok);
      protocol := MirrorGate(protocol, batches, nextId, old(state.Value()), queue.entries, publisher.log,
                             RecorderProtocol.MarkQueue(ok), state.Value());
    }

    method StartSpooling()
      requires Valid()
      modifies this`protocol, state
      ensures Valid() && Leads(old(protocol), protocol) && protocol.accepted == old(protocol.accepted)
      ensures state.Value() == old(state.Value()).(spooling := true)
    {
      state.StartSpooling();
      protocol := MirrorGate(protocol, batches, nextId, old(state.Value()), queue.entries, publisher.log,
                             RecorderProtocol.StartSpooling, state.Value());
    }

    /** The replay has found the queue empty. */
    method SettleEmpty(compliant: bool)
      requires Valid()
      modifies this`protocol, state
      ensures Valid() && Leads(old(protocol), protocol) && protocol.accepted == old(protocol.accepted)
      ensures state.Value() == old(state.Value()).(queueOK := true).Resume(compliant, queue.entries == [])
    {
      MarkQueue(true);
      ghost var marked := protocol;
      Resume(compliant);
      Join(old(protocol), marked, protocol);
    }

    /** Commits a batch that was read from the front and published. */
    method CommitReplay(batch: QueuedBatch, ghost count: nat, answers: LogAnswers) returns (ok: bool)
      requires queue.Valid() && Owes(0)
      requires IsFront(queue.first, queue.entries, batch, count) && committed + |batch.records| <= replayed
      modifies this`committed, state, queue
      ensures queue.Valid() && Owes(0)
      ensures ok <==> Commits(old(queue.first), old(queue.entries), count, answers)
      ensures queue.entries == if ok then old(queue.entries)[count..] else old(queue.entries)
      ensures state.Value() == old(state.Value()).(queueOK := ok)
    {
      FrontIsGenuine(queue.first, queue.entries, batch, count);
      var error := queue.Commit(batch, answers.stillOpen, answers.next, answers.truncated);
      state.SetQueueOK(error == None);
      if error != None {
        return false;
      }
      committed := committed + |batch.records|;
      return true;
    }

    /** Publishes a batch from the front, and commits it if Kafka confirms it. */
    method PublishFront(batch: QueuedBatch, ghost count: nat, fate: Fate, answers: LogAnswers)
      returns (r: ReplayResult)
      requires queue.Valid() && Owes(0) && IsFront(queue.first, queue.entries, batch, count)
      modifies this`kafkaAccepted, this`replayed, this`committed, state, queue, publisher
      ensures queue.Valid() && Owes(0)
      ensures r == Replayed(Delivered(fate, batch.records).error,
                            Commits(old(queue.first), old(queue.entries), count, answers))
      ensures queue.entries == (if r == ReplayCommitted then old(queue.entries)[count..] else old(queue.entries))
      ensures var error := Delivered(fate, batch.records).error;
        state.Value() == AfterReplay(old(state.Value()), error == None, error == Some(Permanent), r == ReplayCommitted)
      ensures publisher.log == old(publisher.log) + Appended(fate, batch.records)
    {
      ReportTells(fate, batch.records);
      var result := publisher.Publish(batch.records, fate);
      if result.error.Some? {
        kafkaAccepted, replayed := kafkaAccepted + result.confirmed, replayed + result.confirmed;
        state.ReplayFailed(result.error == Some(Permanent));
        return if result.error == Some(Permanent) then ReplayPaused else ReplayRetry;
      }
      kafkaAccepted, replayed := kafkaAccepted + |batch.records|, replayed + |batch.records|;
      state.ReplaySucceeded();
      var ok := CommitReplay(batch, count, answers);
      r := if ok then ReplayCommitted else ReplayRetry;
    }

    /** The replay of one batch that was read from the front. */
    method ReplayFront(batch: QueuedBatch, ghost count: nat, fate: Fate, answers: LogAnswers)
      returns (r: ReplayResult)
      requires Valid() && IsFront(queue.first, queue.entries, batch, count)
      modifies this, state, queue, publisher
      ensures Valid() && Leads(old(protocol), protocol) && protocol.accepted == old(protocol.accepted)
      ensures ReplayedFront(old(Shows()), old(queue.first), Shows(), count, fate, answers, r)
      ensures state.replayPaused <==> old(state.replayPaused) || r == ReplayPaused
    {
      ghost var error := Delivered(fate, batch.records).error;
      ReportTells(fate, batch.records);
      r := PublishFront(batch, count, fate, answers);
      protocol := MirrorReplay(protocol, batches, nextId, old(state.Value()), old(queue.entries), old(publisher.log),
                               count, error == None, error == Some(Permanent), r == ReplayCommitted,
                               Appended(fate, batch.records));
    }

    /** Replays a batch that was read from the front and, once it is gone, tries to resume. */
    method ReplayRead(batch: QueuedBatch, ghost count: nat, fate: Fate, answers: LogAnswers, still: bool)
      returns (r: ReplayResult)
      requires Valid() && IsFront(queue.first, queue.entries, batch, count)
      modifies this, state, queue, publisher
      ensures Valid() && Leads(old(protocol), protocol) && protocol.accepted == old(protocol.accepted)
      ensures ReplayedFront(old(Shows()), old(queue.first), Shows(), count, fate, answers, r)
      ensures state.replayPaused <==> old(state.replayPaused) || r == ReplayPaused
      ensures r == ReplayCommitted && queue.entries == [] && still && !old(state.replayPaused) ==> !state.spooling
    {
      ghost var before, first := Shows(), queue.first;
      r := ReplayFront(batch, count, fate, answers);
      if r == ReplayCommitted {
        ghost var committed, after := protocol, Shows();
        Resume(still);
        Join(old(protocol), committed, protocol);
        ReplayedStays(before, first, after, count, fate, answers, r, state.Value());
      }
    }

    /** Reads the front batch, and says how many entries it holds. */
    method ReadFront(limit: int, answers: LogAnswers) returns (read: Result<QueuedBatch, QueueError>, ghost count: nat)
      requires queue.Valid()
      ensures read.Success? ==> IsFront(queue.first, queue.entries, read.value, count)
      ensures read.Success? ==> ReadsFront(queue.entries, limit, answers, count)
      ensures read.Success? ==> forall n: nat :: ReadsFront(queue.entries, limit, answers, n) ==> n == count
      ensures read.Failure? ==> forall n: nat :: !ReadsFront(queue.entries, limit, answers, n)
      ensures read == Failure(Empty) <==> limit > 0 && answers.open && queue.entries == []
    {
      count := 0;
      read := queue.Read(limit, answers.open, answers.readable);
      if read.Success? {
        count :| IsRead(queue.first, queue.entries, limit, answers.readable, read.value, count);
        OneFront(queue.entries, limit, answers, count);
      }
    }

    /** The replay on a compliant topic. */
    method ReplayQueued(limit: int, fate: Fate, answers: LogAnswers, still: bool) returns (r: ReplayResult)
      requires Valid()
      modifies this, state, queue, publisher
      ensures Valid() && Leads(old(protocol), protocol) && protocol.accepted == old(protocol.accepted)
      ensures r == ReplayIdle <==> limit > 0 && answers.open && old(queue.entries) == []
      ensures forall count: nat :: ReadsFront(old(queue.entries), limit, answers, count) ==>
        ReplayedFront(old(Shows()), old(queue.first), Shows(), count, fate, answers, r)
      ensures (forall count: nat :: !ReadsFront(old(queue.entries), limit, answers, count)) ==>
        NothingReplayed(old(Shows()), Shows(), r)
      ensures state.replayPaused <==> old(state.replayPaused) || r == ReplayPaused
      ensures r == ReplayCommitted && queue.entries == [] && still && !old(state.replayPaused) ==> !state.spooling
    {
      var read, count := ReadFront(limit, answers);
      if read == Failure(Empty) {
        SettleEmpty(still);
        return ReplayIdle;
      }
      if read.Failure? {
        MarkQueue(false);
        return ReplayRetry;
      }
      r := ReplayRead(read.value, count, fate, answers, still);
    }

    /** Publishes and commits one batch from the front of the queue.  The topic status is read when
        the call begins (`compliant`) and again when it decides on recovery (`still`). */
    method ReplayBatch(compliant: bool, limit: int, fate: Fate, answers: LogAnswers, still: bool)
      returns (r: ReplayResult)
      requires Valid()
      modifies this, state, queue, publisher
      ensures Valid() && Leads(old(protocol), protocol) && protocol.accepted == old(protocol.accepted)
      ensures r == ReplayIdle <==> !compliant || (limit > 0 && answers.open && old(queue.entries) == [])
      ensures forall count: nat :: compliant && ReadsFront(old(queue.entries), limit, answers, count) ==>
        ReplayedFront(old(Shows()), old(queue.first), Shows(), count, fate, answers, r)
      ensures !compliant || (forall count: nat :: !ReadsFront(old(queue.entries), limit, answers, count)) ==>
        NothingReplayed(old(Shows()), Shows(), r)
      ensures state.replayPaused <==> old(state.replayPaused) || r == ReplayPaused
      ensures r == ReplayCommitted && queue.entries == [] && still && !old(state.replayPaused) ==> !state.spooling
    {
      if !compliant {
        StartSpooling();
        return ReplayIdle;
      }
      r := ReplayQueued(limit, fate, answers, still);
    }
  }
}
