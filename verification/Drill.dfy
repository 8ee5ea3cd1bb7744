/** The drill that loses one Kafka acknowledgement and looks for the duplicate: the consumer, and
    the recorder driven over an empty queue. */
module Drill {
  import opened Capacity
  import opened Wrappers
  import opened DiskQueue
  import opened Kafka
  import opened LostAck
  import opened Recorder

  /** The drill's queue: 4 MiB in segments of 1 MiB, and nothing kept free for others. */
  const DRILL_POLICY := Policy(0x40_0000, 0, 0x10_0000)

  datatype Verdict = NotOpened | WriteFailed | NotReplayed(result: ReplayResult) | NotConsumed | Verified

  // ---- The consumer ------------------------------------------------------------------------

  function Count(records: seq<Record>, matches: Record -> bool): nat {
    if records == [] then 0
    else Count(records[..|records| - 1], matches) + if matches(records[|records| - 1]) then 1 else 0
  }

  lemma {:induction false} CountConcat(a: seq<Record>, b: seq<Record>, matches: Record -> bool)
    ensures Count(a + b, matches) == Count(a, matches) + Count(b, matches)
  {
    if b == [] {
      assert a + b == a;
    } else {
      var n := |b| - 1;
      assert (a + b)[..|a + b| - 1] == a + b[..n];
      CountConcat(a, b[..n], matches);
    }
  }

  /** How far into the log some polls get, of at most so many records each. */
  function Seen(log: seq<Record>, polls: seq<nat>): (n: nat)
    ensures n <= |log|
  {
    if polls == [] then 0 else
    var n := Seen(log, polls[..|polls| - 1]) + polls[|polls| - 1];
    if n < |log| then n else |log|
  }

  /** Polls together get as far as their sum, or to the end of the log. */
  lemma {:induction false} SeenIsSum(log: seq<Record>, polls: seq<nat>)
    ensures Seen(log, polls) == if Sum(polls) < |log| then Sum(polls) else |log|
  {
    if polls == [] {
    } else {
      SeenIsSum(log, polls[..|polls| - 1]);
    }
  }

  function Sum(polls: seq<nat>): nat {
    if polls == [] then 0 else Sum(polls[..|polls| - 1]) + polls[|polls| - 1]
  }

  lemma SeenNext(log: seq<Record>, polls: seq<nat>, used: nat)
    requires used < |polls|
    ensures var n := Seen(log, polls[..used]) + polls[used];
      Seen(log, polls[..used + 1]) == if n < |log| then n else |log|
  {
    assert polls[..used + 1][..used] == polls[..used];
  }

  /** Polls see no less than the first of them. */
  lemma {:induction false} SeenGrows(log: seq<Record>, polls: seq<nat>, used: nat)
    requires used <= |polls|
    ensures Seen(log, polls[..used]) <= Seen(log, polls)
  {
    if used == |polls| {
      assert polls[..used] == polls;
    } else {
      SeenGrows(log, polls[..|polls| - 1], used);
      assert polls[..|polls| - 1][..used] == polls[..used];
    }
  }

  lemma CountGrows(log: seq<Record>, a: nat, b: nat, matches: Record -> bool)
    requires a <= b <= |log|
    ensures Count(log[..a], matches) <= Count(log[..b], matches)
  {
    assert log[..b] == log[..a] + log[a..b];
    CountConcat(log[..a], log[a..b], matches);
  }

  /** The matches that the first `used` polls see. */
  function Matching(log: seq<Record>, polls: seq<nat>, used: nat, matches: Record -> bool): nat
    requires used <= |polls|
  {
    Count(log[..Seen(log, polls[..used])], matches)
  }

  lemma MatchingGrows(log: seq<Record>, polls: seq<nat>, used: nat, matches: Record -> bool)
    requires used <= |polls|
    ensures Matching(log, polls, used, matches) <= Matching(log, polls, |polls|, matches)
  {
    assert polls[..|polls|] == polls;
    SeenGrows(log, polls, used);
    CountGrows(log, Seen(log, polls[..used]), Seen(log, polls), matches);
  }

  /** Counts the matches of one poll. */
  method CountFetch(log: seq<Record>, from: nat, to: nat, matches: Record -> bool, before: nat) returns (count: nat)
    requires from <= to <= |log| && before == Count(log[..from], matches)
    ensures count == Count(log[..to], matches)
  {
    count := before;
    for i := from to to
      invariant count == Count(log[..i], matches)
    {
      assert log[..i + 1][..i] == log[..i];
      if matches(log[i]) {
        count := count + 1;
      }
    }
  }

  /** Reads the log from its start, poll by poll, until it has seen `want` matches; the polls end
      when the deadline does. */
  method ConsumeUntil(log: seq<Record>, polls: seq<nat>, want: int, matches: Record -> bool)
    returns (ok: bool, used: nat)
    ensures used <= |polls|
    ensures ok <==> Matching(log, polls, |polls|, matches) >= want
    ensures ok ==> Matching(log, polls, used, matches) >= want
    ensures used > 0 ==> Matching(log, polls, used - 1, matches) < want
  {
    var count, position := 0, 0;
    used := 0;
    while count < want
      invariant used <= |polls| && position == Seen(log, polls[..used])
      invariant count == Count(log[..position], matches) == Matching(log, polls, used, matches)
      invariant used > 0 ==> Matching(log, polls, used - 1, matches) < want
      decreases |polls| - used
    {
      if used == |polls| {
        return false, used;
      }
      var end := if position + polls[used] < |log| then position + polls[used] else |log|;
      count := CountFetch(log, position, end, matches, count);
      SeenNext(log, polls, used);
      position, used := end, used + 1;
    }
    MatchingGrows(log, polls, used, matches);
    ok := true;
  }

  // ---- The drill ---------------------------------------------------------------------------

  /** What the drill meets: the log in its queue directory and whether it can be opened, Kafka's
      treatment of the two deliveries, the clock, and the disk at the append and at the replay. */
  datatype Surroundings = Surroundings(log: seq<Stored>, first: nat, prepared: bool, probed: bool,
                                       write: Fate, replay: Fate, now: int, disk: Disk, answers: LogAnswers)
  {
    predicate Valid() {
      first >= 1 && first + |log| <= MAX_UINT64 + 1
    }

    /** Everything up to the commit of the replay goes well.  The queue has to be empty: over a queue
        with entries the hidden acknowledgement would be that of an old batch. */
    ghost predicate Delivers(record: Record) {
      && prepared && probed && log == [] && first <= MAX_UINT64
      && Storable(DRILL_POLICY, 0, [record], now, disk)
      && Accepts(write, [record]) && ReplaysOne(first, [record], replay, answers)
    }
  }

  /** The only batch of a queue is read, confirmed and committed. */
  predicate ReplaysOne(first: nat, records: seq<Record>, replay: Fate, answers: LogAnswers) {
    && Accepts(replay, records) && answers.open && answers.readable(0)
    && answers.stillOpen && answers.truncated && first != MAX_UINT64
  }

  /** A delivery that the publisher hides is not accepted in its caller's eyes. */
  lemma HiddenIsNotAccepted(fate: Fate, records: seq<Record>)
    requires records != []
    ensures Delivered(Through(true, fate, records), records).error != None
  {
    ReportTells(Through(true, fate, records), records);
    AllUnknown(_ => Unknown(true), records);
  }

  /** Writes one record to a recorder over the opened queue, through a publisher that hides the first
      acknowledgement, and says whether it still has one to hide. */
  method Store(client: Client, w: Surroundings, record: Record) returns (recorder: Recorder?, ok: bool, inject: bool)
    requires w.Valid()
    modifies client
    ensures recorder == null <==> !(w.prepared && Openable(w.log) && w.probed)
    ensures recorder != null ==>
      && fresh(recorder) && fresh(recorder.state) && fresh(recorder.queue)
      && recorder.Valid() && recorder.publisher == client
      && (ok ==> recorder.queue.entries != [])
    ensures recorder != null && w.log == [] ==>
      && (ok <==> Storable(DRILL_POLICY, 0, [record], w.now, w.disk) && w.first <= MAX_UINT64)
      && (ok ==> recorder.queue.first == w.first && recorder.queue.entries == [Entry([record], w.now)])
      && inject == !Accepts(w.write, [record])
      && client.log == old(client.log) + Appended(w.write, [record])
      && (!inject ==> client.log == old(client.log) + [record])
    ensures recorder != null && w.log != [] ==> inject
  {
    var queue := Open(DRILL_POLICY, w.log, w.first, w.prepared, w.probed);
    if queue == null {
      return null, false, true;
    }
    recorder := new Recorder(client, queue);
    ReportTells(w.write, [record]);
    ThroughIsReported(true, w.write, [record]);
    HiddenIsNotAccepted(w.write, [record]);
    ReportTells(Through(true, w.write, [record]), [record]);
    queue.AnswerIsNone([record], w.now, w.disk);
    var asked := !recorder.state.spooling;
    ok := recorder.Write([record], true, Through(true, w.write, [record]), w.now, w.disk);
    inject := !(asked && Accepts(w.write, [record]));
  }

  lemma OneFills(entries: seq<Entry>, count: nat)
    requires AllSound(entries) && Fills(entries, 1, count)
    ensures count == 1
  {
    SoundIsPositive(entries[..count]);
  }

  /** One record at most is asked for, and so the front batch is the first entry. */
  lemma FrontIsFirst(entries: seq<Entry>, answers: LogAnswers, count: nat)
    requires AllSound(entries) && ReadsFront(entries, 1, answers, count)
    ensures count == 1 && Records(entries[..1]) == entries[0].records && entries[0].records != []
  {
    OneFills(entries, count);
    assert entries[..1] == [] + [entries[0]];
    MeasureSnoc([], entries[0]);
    assert entries[0].Sound();
  }

  lemma OneEntry(first: nat, e: Entry, answers: LogAnswers)
    requires e.Sound()
    ensures ReadsFront([e], 1, answers, 1) <==> answers.open && answers.readable(0)
    ensures Commits(first, [e], 1, answers) <==> answers.stillOpen && answers.truncated && first != MAX_UINT64
  {
    OnlyEntry(first, e, 1);
    MeasureSnoc([], e);
    assert [e][..1] == [] + [e];
    assert forall i: nat :: LooksAt([e], 1, 1, i) <==> i == 0;
  }

  /** Replays the first entry of the queue through the publisher. */
  method ReplayFirst(recorder: Recorder, replay: Fate, inject: bool, answers: LogAnswers) returns (r: ReplayResult)
    requires recorder.Valid() && recorder.queue.entries != []
    modifies recorder, recorder.state, recorder.queue, recorder.publisher
    ensures inject ==> r != ReplayCommitted
    ensures !inject && |old(recorder.queue.entries)| == 1 ==>
      var records := old(recorder.queue.entries)[0].records;
      && (r == ReplayCommitted <==> ReplaysOne(old(recorder.queue.first), records, replay, answers))
      && (r == ReplayCommitted ==> recorder.publisher.log == old(recorder.publisher.log) + records)
  {
    ghost var entries := recorder.queue.entries;
    var e := recorder.queue.entries[0];
    assert e in entries;
    if inject { HiddenIsNotAccepted(replay, e.records); }
    ReportTells(replay, e.records);
    if |entries| == 1 {
      assert entries == [e];
      OneEntry(recorder.queue.first, e, answers);
    }
    forall count: nat | ReadsFront(entries, 1, answers, count)
      ensures count == 1 && Records(entries[..1]) == e.records
    {
      FrontIsFirst(entries, answers, count);
    }
    r := recorder.ReplayBatch(true, 1, Through(inject, replay, e.records), answers, true);
  }

  /** Replays once after the record was stored.  That delivers only over a queue that was empty, by a
      publisher that has nothing to hide any more. */
  method ReplayStored(recorder: Recorder, w: Surroundings, record: Record, inject: bool) returns (result: ReplayResult)
    requires recorder.Valid() && recorder.queue.entries != [] && (w.log != [] ==> inject)
    requires w.log == [] ==> recorder.queue.first == w.first && recorder.queue.entries == [Entry([record], w.now)]
    modifies recorder, recorder.state, recorder.queue, recorder.publisher
    ensures result == ReplayCommitted <==> !inject && ReplaysOne(w.first, [record], w.replay, w.answers)
    ensures result == ReplayCommitted ==> recorder.publisher.log == old(recorder.publisher.log) + [record]
  {
    ghost var entries := recorder.queue.entries;
    assert w.log == [] ==> |entries| == 1 && entries[0].records == [record];
    result := ReplayFirst(recorder, w.replay, inject, w.answers);
  }

  /** Writes the record and replays it once.  Only if that delivers does the consumer start, over a
      log that now holds the record twice more. */
  method Deliver(client: Client, w: Surroundings, record: Record) returns (r: Option<Verdict>)
    requires w.Valid()
    modifies client
    ensures r == None <==> w.Delivers(record)
    ensures r == None ==> client.log == old(client.log) + [record, record]
    ensures r != Some(Verified) && r != Some(NotConsumed)
    ensures r == Some(NotOpened) <==> !(w.prepared && Openable(w.log) && w.probed)
  {
    var recorder, ok, inject := Store(client, w, record);
    if recorder == null {
      return Some(NotOpened);
    }
    if !ok {
      return Some(WriteFailed);
    }
    var result := ReplayStored(recorder, w, record, inject);
    assert old(client.log) + [record] + [record] == old(client.log) + [record, record];
    r := if result == ReplayCommitted then None else Some(NotReplayed(result));
  }

  /** The whole drill.  It succeeds exactly when it starts over an empty queue, the record is stored,
      both deliveries are accepted, the replay is committed and the consumer, within its deadline,
      sees two records with the identifier; with an identifier that is new to the log it has then
      seen the very end of it. */
  method VerifyDuplicate(client: Client, w: Surroundings, record: Record, polls: seq<nat>) returns (r: Verdict)
    requires w.Valid()
    modifies client
    ensures var same := (candidate: Record) => candidate.id == record.id;
      && (r == Verified <==> w.Delivers(record) && Count(client.log[..Seen(client.log, polls)], same) >= 2)
      && ((forall earlier <- old(client.log) :: earlier.id != record.id) ==>
           (r == Verified <==> w.Delivers(record) && Seen(client.log, polls) == |client.log|))
    ensures r == NotOpened <==> !(w.prepared && Openable(w.log) && w.probed)
    ensures r == NotConsumed ==> w.Delivers(record)
    ensures r == Verified || r == NotConsumed ==> client.log == old(client.log) + [record, record]
  {
    var same := (candidate: Record) => candidate.id == record.id;
    var failed := Deliver(client, w, record);
    if failed.Some? {
      return failed.value;
    }
    var found, _ := ConsumeUntil(client.log, polls, 2, same);
    assert polls[..|polls|] == polls;
    NewIsLast(old(client.log), record, Seen(client.log, polls), same);
    r := if found then Verified else NotConsumed;
  }

  lemma {:induction false} NoMatches(records: seq<Record>, matches: Record -> bool)
    requires forall r <- records :: !matches(r)
    ensures Count(records, matches) == 0
  {
    if records == [] {
    } else {
      NoMatches(records[..|records| - 1], matches);
    }
  }

  /** Of two copies behind a log without any, the second is seen only at the very end. */
  lemma NewIsLast(log: seq<Record>, record: Record, seen: nat, matches: Record -> bool)
    requires seen <= |log| + 2 && matches(record)
    ensures (forall r <- log :: !matches(r)) ==>
      (Count((log + [record, record])[..seen], matches) >= 2 <==> seen == |log| + 2)
  {
    if forall r <- log :: !matches(r) {
      NoMatches(log, matches);
      var all := log + [record, record];
      var once := log + [record];
      assert once[..|log|] == log && all[..|log| + 1] == once && all[..|log| + 2] == all;
      assert Count(once, matches) == 1 && Count(all, matches) == 2;
      if seen <= |log| + 1 { CountGrows(all, seen, |log| + 1, matches); }
    }
  }
}
