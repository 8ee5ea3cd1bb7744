/** The publisher that hides the first success: Kafka has taken the records, but the caller is told
    of an uncertain failure.  What whole runs of it report and leave in Kafka's log. */
module LostAck {
  import opened Wrappers
  import opened DiskQueue
  import opened Kafka

  /** What the publisher reports for `count` records when the real result is `result`. */
  function Reported(inject: bool, result: PublishResult, count: nat): PublishResult {
    if result.error.Some? || !inject then result else PublishResult(0, count, Some(Uncertain))
  }

  /** The delivery as a caller of the publisher sees it: a hidden success is one in which the fate of
      every record is unknown, though all of them have landed. */
  function Through(inject: bool, fate: Fate, records: seq<Record>): Fate {
    if inject && Accepts(fate, records) then Produced(_ => Unknown(true)) else fate
  }

  lemma {:induction false} AllUnknown(outcome: nat -> Outcome, records: seq<Record>)
    requires forall i :: 0 <= i < |records| ==> outcome(i) == Unknown(true)
    ensures Confirmations(outcome, |records|) == 0 && Arriving(outcome, records) == records
    ensures Worst(outcome, |records|) == if records == [] then None else Some(Uncertain)
  {
    if records == [] {
    } else {
      var n := |records| - 1;
      AllUnknown(outcome, records[..n]);
      assert records == records[..n] + [records[n]];
    }
  }

  /** So the publisher is, for its caller, a client whose first complete delivery is one of unknown
      fate: the reports are the same, and the log grows by the same records. */
  lemma ThroughIsReported(inject: bool, fate: Fate, records: seq<Record>)
    requires records != []
    ensures Reported(inject, Delivered(fate, records), |records|) == Delivered(Through(inject, fate, records), records)
    ensures Appended(fate, records) == Appended(Through(inject, fate, records), records)
  {
    ReportTells(fate, records);
    AllUnknown(_ => Unknown(true), records);
  }

  class LostAckPublisher {
    const delegate: Client
    var inject: bool

    constructor (delegate: Client, inject: bool)
      ensures this.delegate == delegate && this.inject == inject
    {
      this.delegate, this.inject := delegate, inject;
    }

    method Publish(records: seq<Record>, fate: Fate) returns (r: PublishResult)
      modifies this, delegate
      ensures r == Reported(old(inject), Delivered(fate, records), |records|)
      ensures inject == (old(inject) && !Accepts(fate, records))
      ensures delegate.log == old(delegate.log) + Appended(fate, records)
    {
      ReportTells(fate, records);
      var result := delegate.Publish(records, fate);
      if result.error != None || !inject {
        return result;
      }
      inject := false;
      return PublishResult(0, |records|, Some(Uncertain));
    }
  }

  // ---- Whole runs of the publisher ---------------------------------------------------------

  /** One call of the publisher by a caller that numbers its batches. */
  datatype Attempt = Attempt(batch: nat, fate: Fate)

  /** What each batch holds. */
  type Batches = nat -> seq<Record>

  /** Kafka takes the whole batch of the call. */
  predicate Taken(content: Batches, a: Attempt) {
    Accepts(a.fate, content(a.batch))
  }

  /** The injection flag after the calls of a run. */
  function FlagAfter(inject: bool, content: Batches, run: seq<Attempt>): bool {
    if run == [] then inject
    else FlagAfter(inject, content, run[..|run| - 1]) && !Taken(content, run[|run| - 1])
  }

  /** What the calls of a run report, in order. */
  function Reports(inject: bool, content: Batches, run: seq<Attempt>): (r: seq<PublishResult>)
    ensures |r| == |run|
  {
    if run == [] then [] else
    var n, records := |run| - 1, content(run[|run| - 1].batch);
    Reports(inject, content, run[..n]) +
      [Reported(FlagAfter(inject, content, run[..n]), Delivered(run[n].fate, records), |records|)]
  }

  /** What the calls of a run append to Kafka's log. */
  function LogAfter(content: Batches, run: seq<Attempt>): seq<Record> {
    if run == [] then [] else
    var n := |run| - 1;
    LogAfter(content, run[..n]) + Appended(run[n].fate, content(run[n].batch))
  }

  /** What one more call adds. */
  lemma NextCall(inject: bool, content: Batches, run: seq<Attempt>, i: nat)
    requires i < |run|
    ensures var a, before, upto := run[i], run[..i], run[..i + 1];
      var records := content(a.batch);
      && FlagAfter(inject, content, upto) == (FlagAfter(inject, content, before) && !Accepts(a.fate, records))
      && Reports(inject, content, upto) == Reports(inject, content, before) +
           [Reported(FlagAfter(inject, content, before), Delivered(a.fate, records), |records|)]
      && LogAfter(content, upto) == LogAfter(content, before) + Appended(a.fate, records)
  {
    assert run[..i + 1][..i] == run[..i];
  }

  /** Makes one call of a run. */
  method PublishNext(p: LostAckPublisher, content: Batches, run: seq<Attempt>, i: nat, ghost inject: bool)
    returns (report: PublishResult)
    requires i < |run| && p.inject == FlagAfter(inject, content, run[..i])
    modifies p, p.delegate
    ensures p.inject == FlagAfter(inject, content, run[..i + 1])
    ensures Reports(inject, content, run[..i + 1]) == Reports(inject, content, run[..i]) + [report]
    ensures var added := Appended(run[i].fate, content(run[i].batch));
      && p.delegate.log == old(p.delegate.log) + added
      && LogAfter(content, run[..i + 1]) == LogAfter(content, run[..i]) + added
  {
    NextCall(inject, content, run, i);
    report := p.Publish(content(run[i].batch), run[i].fate);
  }

  /** Makes the calls of a run on one publisher. */
  method PublishAll(p: LostAckPublisher, content: Batches, run: seq<Attempt>) returns (reports: seq<PublishResult>)
    modifies p, p.delegate
    ensures reports == Reports(old(p.inject), content, run)
    ensures p.inject == FlagAfter(old(p.inject), content, run)
    ensures p.delegate.log == old(p.delegate.log) + LogAfter(content, run)
  {
    ghost var inject, log := p.inject, p.delegate.log;
    reports := [];
    for i := 0 to |run|
      invariant p.inject == FlagAfter(inject, content, run[..i])
      invariant reports == Reports(inject, content, run[..i])
      invariant p.delegate.log == log + LogAfter(content, run[..i])
    {
      ghost var before, added := LogAfter(content, run[..i]), Appended(run[i].fate, content(run[i].batch));
      var report := PublishNext(p, content, run, i, inject);
      reports := reports + [report];
      assert log + before + added == log + (before + added);
    }
    assert run[..|run|] == run;
  }

  /** The call whose acknowledgement is lost: the first one Kafka accepts. */
  predicate IsVictim(content: Batches, run: seq<Attempt>, i: nat) {
    i < |run| && Taken(content, run[i]) && forall j :: 0 <= j < i ==> !Taken(content, run[j])
  }

  /** The flag stands exactly until Kafka accepts a call. */
  lemma {:induction false} FlagClosedForm(inject: bool, content: Batches, run: seq<Attempt>)
    ensures FlagAfter(inject, content, run) <==> inject && forall j :: 0 <= j < |run| ==> !Taken(content, run[j])
  {
    if run == [] {
    } else {
      FlagClosedForm(inject, content, run[..|run| - 1]);
    }
  }

  lemma {:induction false} ReportAt(inject: bool, content: Batches, run: seq<Attempt>, i: nat)
    requires i < |run|
    ensures var records := content(run[i].batch);
      Reports(inject, content, run)[i] ==
      Reported(FlagAfter(inject, content, run[..i]), Delivered(run[i].fate, records), |records|)
  {
    var n := |run| - 1;
    if i == n {
    } else {
      ReportAt(inject, content, run[..n], i);
      assert run[..n][..i] == run[..i];
    }
  }

  /** Exactly the first accepted call is misreported, as an uncertain failure of all its records;
      every other call reports what Kafka did. */
  lemma OnlyFirstSuccessIsHidden(inject: bool, content: Batches, run: seq<Attempt>, i: nat)
    requires i < |run|
    ensures Reports(inject, content, run)[i] ==
      if inject && IsVictim(content, run, i) then PublishResult(0, |content(run[i].batch)|, Some(Uncertain))
      else Delivered(run[i].fate, content(run[i].batch))
  {
    ReportAt(inject, content, run, i);
    FlagClosedForm(inject, content, run[..i]);
    ReportTells(run[i].fate, content(run[i].batch));
  }

  // ---- The records in Kafka's log ----------------------------------------------------------

  /** The first accepted call of a run. */
  function FirstAccepted(content: Batches, run: seq<Attempt>): Option<nat> {
    if run == [] then None else
    var n := |run| - 1;
    var earlier := FirstAccepted(content, run[..n]);
    if earlier.Some? then earlier else if Taken(content, run[n]) then Some(n) else None
  }

  lemma {:induction false} FirstAcceptedIsVictim(content: Batches, run: seq<Attempt>)
    ensures match FirstAccepted(content, run)
      case Some(i) => IsVictim(content, run, i)
      case None => forall j :: 0 <= j < |run| ==> !Taken(content, run[j])
  {
    if run == [] {
    } else {
      FirstAcceptedIsVictim(content, run[..|run| - 1]);
    }
  }

  /** The call whose acknowledgement the publisher hides. */
  function HiddenCall(inject: bool, content: Batches, run: seq<Attempt>): Option<nat> {
    if inject then FirstAccepted(content, run) else None
  }

  /** The records of the calls whose caller was told of a success. */
  function Told(content: Batches, run: seq<Attempt>, reports: seq<PublishResult>): multiset<Record>
    requires |reports| == |run|
  {
    if run == [] then multiset{} else
    var n := |run| - 1;
    Told(content, run[..n], reports[..n]) +
      if reports[n].error == None then multiset(content(run[n].batch)) else multiset{}
  }

  /** The records that failed calls left in the log. */
  function Landed(content: Batches, run: seq<Attempt>): multiset<Record> {
    if run == [] then multiset{} else
    var n := |run| - 1;
    Landed(content, run[..n]) +
      if Taken(content, run[n]) then multiset{} else multiset(Appended(run[n].fate, content(run[n].batch)))
  }

  /** The records of the call whose acknowledgement was hidden. */
  function Hidden(inject: bool, content: Batches, run: seq<Attempt>): multiset<Record> {
    match HiddenCall(inject, content, run)
    case Some(i) => FirstAcceptedIsVictim(content, run); multiset(content(run[i].batch))
    case None => multiset{}
  }

  lemma VictimIsFirst(content: Batches, run: seq<Attempt>, victim: nat)
    requires IsVictim(content, run, victim)
    ensures FirstAccepted(content, run) == Some(victim)
  {
    FirstAcceptedIsVictim(content, run);
  }

  /** The records of the last call, if its caller was told of a success. */
  function ToldLast(inject: bool, content: Batches, run: seq<Attempt>): multiset<Record>
    requires run != []
  {
    var n := |run| - 1;
    if Reports(inject, content, run)[n].error == None then multiset(content(run[n].batch)) else multiset{}
  }

  function HiddenLast(inject: bool, content: Batches, run: seq<Attempt>): multiset<Record>
    requires run != []
  {
    var n := |run| - 1;
    if inject && IsVictim(content, run, n) then multiset(content(run[n].batch)) else multiset{}
  }

  function LandedLast(content: Batches, run: seq<Attempt>): multiset<Record>
    requires run != []
  {
    var a := run[|run| - 1];
    if Taken(content, a) then multiset{} else multiset(Appended(a.fate, content(a.batch)))
  }

  /** The last call adds its records to the hidden ones iff it is the victim. */
  lemma HiddenBySnoc(inject: bool, content: Batches, run: seq<Attempt>)
    requires run != []
    ensures Hidden(inject, content, run) ==
      Hidden(inject, content, run[..|run| - 1]) + HiddenLast(inject, content, run)
  {
    FirstAcceptedIsVictim(content, run);
    FirstAcceptedIsVictim(content, run[..|run| - 1]);
  }

  lemma ToldBySnoc(inject: bool, content: Batches, run: seq<Attempt>)
    requires run != []
    ensures var before := run[..|run| - 1];
      Told(content, run, Reports(inject, content, run)) ==
      Told(content, before, Reports(inject, content, before)) + ToldLast(inject, content, run)
  {
    assert Reports(inject, content, run)[..|run| - 1] == Reports(inject, content, run[..|run| - 1]);
  }

  /** What the last call appends was told of, hidden or left behind. */
  lemma LastAccounted(inject: bool, content: Batches, run: seq<Attempt>)
    requires run != []
    ensures var a := run[|run| - 1];
      multiset(Appended(a.fate, content(a.batch))) ==
      ToldLast(inject, content, run) + HiddenLast(inject, content, run) + LandedLast(content, run)
  {
    OnlyFirstSuccessIsHidden(inject, content, run, |run| - 1);
    ReportTells(run[|run| - 1].fate, content(run[|run| - 1].batch));
  }

  lemma Regroup(a: multiset<Record>, b: multiset<Record>, c: multiset<Record>,
                x: multiset<Record>, y: multiset<Record>, z: multiset<Record>)
    ensures (a + x) + (b + y) + (c + z) == (a + b + c) + (x + y + z)
  {
  }

  lemma LogBySnoc(content: Batches, run: seq<Attempt>)
    requires run != []
    ensures var n, a := |run| - 1, run[|run| - 1];
      multiset(LogAfter(content, run)) ==
      multiset(LogAfter(content, run[..n])) + multiset(Appended(a.fate, content(a.batch)))
  {
  }

  /** Accounting: Kafka's log grows by the records the callers were told about, the records of the
      one hidden success, and what failed calls left behind. */
  lemma {:induction false} LogAccounted(inject: bool, content: Batches, run: seq<Attempt>)
    ensures multiset(LogAfter(content, run)) ==
      Told(content, run, Reports(inject, content, run)) + Hidden(inject, content, run) + Landed(content, run)
  {
    if run == [] {
    } else {
      var before := run[..|run| - 1];
      LogAccounted(inject, content, before);
      LogBySnoc(content, run);
      LastAccounted(inject, content, run);
      HiddenBySnoc(inject, content, run);
      ToldBySnoc(inject, content, run);
      Regroup(Told(content, before, Reports(inject, content, before)), Hidden(inject, content, before),
              Landed(content, before),
              ToldLast(inject, content, run), HiddenLast(inject, content, run), LandedLast(content, run));
    }
  }

  /** How often the caller was told that the batch was taken. */
  function TimesTold(run: seq<Attempt>, reports: seq<PublishResult>, batch: nat): nat
    requires |reports| == |run|
  {
    if run == [] then 0 else
    var n := |run| - 1;
    TimesTold(run[..n], reports[..n], batch) + if run[n].batch == batch && reports[n].error == None then 1 else 0
  }

  /** The record belongs to the batch alone, among the batches of the run. */
  predicate Owns(content: Batches, run: seq<Attempt>, batch: nat, record: Record) {
    forall j :: 0 <= j < |run| && run[j].batch != batch ==> record !in content(run[j].batch)
  }

  /** `n` deliveries of a batch that holds the record `once` times. */
  function Copies(once: nat, n: nat): nat {
    if n == 0 then 0 else Copies(once, n - 1) + once
  }

  lemma {:induction false} ToldByBatch(content: Batches, run: seq<Attempt>, reports: seq<PublishResult>,
                                       batch: nat, record: Record)
    requires |reports| == |run| && Owns(content, run, batch, record)
    ensures Told(content, run, reports)[record] ==
      Copies(multiset(content(batch))[record], TimesTold(run, reports, batch))
  {
    if run == [] {
    } else {
      var n := |run| - 1;
      ToldByBatch(content, run[..n], reports[..n], batch, record);
    }
  }

  /** How often the batch was delivered whole: each success its caller was told of, and the one
      that was hidden. */
  function TimesTaken(inject: bool, content: Batches, run: seq<Attempt>, batch: nat): nat {
    FirstAcceptedIsVictim(content, run);
    var hidden := HiddenCall(inject, content, run);
    TimesTold(run, Reports(inject, content, run), batch) +
      if hidden.Some? && run[hidden.value].batch == batch then 1 else 0
  }

  lemma HiddenByBatch(inject: bool, content: Batches, run: seq<Attempt>, batch: nat, record: Record)
    requires Owns(content, run, batch, record)
    ensures Copies(multiset(content(batch))[record], TimesTaken(inject, content, run, batch)) ==
      Copies(multiset(content(batch))[record], TimesTold(run, Reports(inject, content, run), batch)) +
      Hidden(inject, content, run)[record]
  {
    FirstAcceptedIsVictim(content, run);
  }

  /** How often a record stands in what a run appended: as its batch holds it for every success its
      caller was told of, once more for the hidden success, and what failed calls left of it. */
  lemma CopiesInLog(inject: bool, content: Batches, run: seq<Attempt>, batch: nat, record: Record)
    requires Owns(content, run, batch, record)
    ensures multiset(LogAfter(content, run))[record] ==
      Copies(multiset(content(batch))[record], TimesTaken(inject, content, run, batch)) + Landed(content, run)[record]
  {
    LogAccounted(inject, content, run);
    ToldByBatch(content, run, Reports(inject, content, run), batch, record);
    HiddenByBatch(inject, content, run, batch, record);
  }

  lemma OneOrTwo(once: nat)
    ensures Copies(once, 1) == once && Copies(once, 2) == once + once
  {
    assert Copies(once, 1) == Copies(once, 0) + once;
  }

  /** A caller that repeats each batch until it is told of one success makes Kafka hold the records
      of the first accepted batch twice and those of every other finished batch once, if and only
      if no failed call left copies of them behind. */
  lemma RetryingCallerDuplicatesOne(content: Batches, run: seq<Attempt>, victim: nat, batch: nat, record: Record)
    requires IsVictim(content, run, victim) && Owns(content, run, batch, record)
    requires TimesTold(run, Reports(true, content, run), batch) == 1
    ensures var once := multiset(content(batch))[record];
      multiset(LogAfter(content, run))[record] == (if batch == run[victim].batch then once + once else once)
      <==> Landed(content, run)[record] == 0
  {
    CopiesInLog(true, content, run, batch, record);
    VictimIsFirst(content, run, victim);
    OneOrTwo(multiset(content(batch))[record]);
  }

  /** Every failed call but the victim was reported as temporary, with nothing confirmed. */
  predicate FailsCleanly(reports: seq<PublishResult>, victim: nat) {
    forall i :: 0 <= i < |reports| && i != victim && reports[i].error != None ==>
      reports[i].error == Some(Temporary) && reports[i].confirmed == 0
  }

  /** What the caller can see: if every failure but the hidden success was reported as temporary with
      nothing confirmed, nothing was left behind, and the rule holds for every record. */
  lemma CleanFailuresLeaveNothing(content: Batches, run: seq<Attempt>, victim: nat)
    requires IsVictim(content, run, victim) && FailsCleanly(Reports(true, content, run), victim)
    ensures Landed(content, run) == multiset{}
  {
    forall i | 0 <= i < |run| ensures Taken(content, run[i]) || Appended(run[i].fate, content(run[i].batch)) == [] {
      OnlyFirstSuccessIsHidden(true, content, run, i);
      ReportTells(run[i].fate, content(run[i].batch));
    }
    NothingLanded(content, run);
  }

  lemma {:induction false} NothingLanded(content: Batches, run: seq<Attempt>)
    requires forall i :: 0 <= i < |run| ==> Taken(content, run[i]) || Appended(run[i].fate, content(run[i].batch)) == []
    ensures Landed(content, run) == multiset{}
  {
    if run == [] {
    } else {
      NothingLanded(content, run[..|run| - 1]);
    }
  }

  /** The fate of every record of the batch is unknown to the caller, but all of them landed. */
  predicate LandsUnknown(fate: Fate, records: seq<Record>) {
    fate.Produced? && forall i :: 0 <= i < |records| ==> fate.outcome(i) == Unknown(true)
  }

  /** How often a batch's caller was told of a success, and the log, after one more call behind the
      hidden success. */
  lemma CallBehindVictim(content: Batches, run: seq<Attempt>, a: Attempt)
    requires !FlagAfter(true, content, run)
    ensures !FlagAfter(true, content, run + [a])
    ensures LogAfter(content, run + [a]) == LogAfter(content, run) + Appended(a.fate, content(a.batch))
    ensures TimesTold(run + [a], Reports(true, content, run + [a]), a.batch) ==
      TimesTold(run, Reports(true, content, run), a.batch) + if Taken(content, a) then 1 else 0
  {
    assert (run + [a])[..|run|] == run;
    ReportTells(a.fate, content(a.batch));
    assert Reports(true, content, run + [a])[..|run|] == Reports(true, content, run);
  }

  /** What a failed call leaves behind does break the rule: behind any run that has its victim, a batch
      whose first delivery is of unknown fate and whose second is accepted gets into the log twice,
      though its caller is told of one success. */
  lemma LeftoversDuplicateToo(content: Batches, run: seq<Attempt>, victim: nat, batch: nat, unknown: Fate, yes: Fate)
    requires IsVictim(content, run, victim) && content(batch) != []
    requires LandsUnknown(unknown, content(batch)) && Accepts(yes, content(batch))
    ensures var longer := run + [Attempt(batch, unknown)] + [Attempt(batch, yes)];
      && LogAfter(content, longer) == LogAfter(content, run) + content(batch) + content(batch)
      && TimesTold(longer, Reports(true, content, longer), batch) ==
         TimesTold(run, Reports(true, content, run), batch) + 1
  {
    FlagClosedForm(true, content, run);
    AllUnknown(unknown.outcome, content(batch));
    ReportTells(yes, content(batch));
    assert unknown.outcome(0) == Unknown(true);
    CallBehindVictim(content, run, Attempt(batch, unknown));
    CallBehindVictim(content, run + [Attempt(batch, unknown)], Attempt(batch, yes));
  }
}
