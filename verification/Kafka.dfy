/** The Kafka side of record delivery: what becomes of each record of a batch, what the client
    reports about the batch, and what it leaves in the topic's log. */
module Kafka {
  import opened Wrappers
  import opened DiskQueue

  /** From the least to the most serious. */
  datatype PublishClass = Temporary | Uncertain | Permanent {
    function Rank(): nat {
      match this
      case Temporary => 1
      case Uncertain => 2
      case Permanent => 3
    }
  }

  /** `error` is absent exactly when every record was confirmed. */
  datatype PublishResult = PublishResult(confirmed: nat, failed: nat, error: Option<PublishClass>)

  /** What becomes of one record: Kafka confirms it, surely does not take it, or its fate is not
      known to the client and it may have landed all the same. */
  datatype Outcome = Confirmed | Refused(permanent: bool) | Unknown(landed: bool) {
    predicate Arrives() {
      Confirmed? || (Unknown? && landed)
    }

    function Class(): Option<PublishClass> {
      match this
      case Confirmed => None
      case Refused(permanent) => Some(if permanent then Permanent else Temporary)
      case Unknown(_) => Some(Uncertain)
    }
  }

  /** What becomes of a batch: it cannot be encoded, or each record has its outcome. */
  datatype Fate = NotEncoded | Produced(outcome: nat -> Outcome)

  /** The more serious of two errors. */
  function Worse(a: Option<PublishClass>, b: Option<PublishClass>): Option<PublishClass> {
    if a.None? then b else if b.Some? && b.value.Rank() > a.value.Rank() then b else a
  }

  /** The most serious error of the first `n` records. */
  function Worst(outcome: nat -> Outcome, n: nat): Option<PublishClass> {
    if n == 0 then None else Worse(Worst(outcome, n - 1), outcome(n - 1).Class())
  }

  function Confirmations(outcome: nat -> Outcome, n: nat): (c: nat)
    ensures c <= n
  {
    if n == 0 then 0 else Confirmations(outcome, n - 1) + if outcome(n - 1).Confirmed? then 1 else 0
  }

  /** The records that get into the log. */
  function Arriving(outcome: nat -> Outcome, records: seq<Record>): seq<Record> {
    if records == [] then [] else
    var n := |records| - 1;
    Arriving(outcome, records[..n]) + if outcome(n).Arrives() then [records[n]] else []
  }

  function Delivered(fate: Fate, records: seq<Record>): PublishResult {
    match fate
    case NotEncoded => PublishResult(0, |records|, Some(Permanent))
    case Produced(outcome) =>
      var confirmed := Confirmations(outcome, |records|);
      PublishResult(confirmed, |records| - confirmed, Worst(outcome, |records|))
  }

  function Appended(fate: Fate, records: seq<Record>): seq<Record> {
    match fate
    case NotEncoded => []
    case Produced(outcome) => Arriving(outcome, records)
  }

  /** Kafka confirms every record. */
  predicate Accepts(fate: Fate, records: seq<Record>) {
    fate.Produced? && forall i :: 0 <= i < |records| ==> fate.outcome(i).Confirmed?
  }

  /** One of the first `n` records met this outcome. */
  predicate Meets(outcome: nat -> Outcome, n: nat, o: Outcome) {
    exists i :: 0 <= i < n && outcome(i) == o
  }

  lemma MeetsNext(outcome: nat -> Outcome, n: nat, o: Outcome)
    ensures Meets(outcome, n + 1, o) <==> Meets(outcome, n, o) || outcome(n) == o
  {
  }

  /** A refusal for ever prevails over an unknown fate, and this over a refusal for the moment. */
  lemma {:induction false} WorstIs(outcome: nat -> Outcome, n: nat)
    ensures Worst(outcome, n) == None <==> forall i :: 0 <= i < n ==> outcome(i) == Confirmed
    ensures var unknown := Meets(outcome, n, Unknown(true)) || Meets(outcome, n, Unknown(false));
      && (Worst(outcome, n) == Some(Permanent) <==> Meets(outcome, n, Refused(true)))
      && (Worst(outcome, n) == Some(Uncertain) <==> unknown && !Meets(outcome, n, Refused(true)))
      && (Worst(outcome, n) == Some(Temporary) <==>
            Meets(outcome, n, Refused(false)) && !unknown && !Meets(outcome, n, Refused(true)))
    ensures Worst(outcome, n) == Some(Temporary) ==> forall i :: 0 <= i < n ==> !outcome(i).Unknown?
  {
    if n == 0 {
    } else {
      WorstIs(outcome, n - 1);
      MeetsNext(outcome, n - 1, Refused(true));
      MeetsNext(outcome, n - 1, Refused(false));
      MeetsNext(outcome, n - 1, Unknown(true));
      MeetsNext(outcome, n - 1, Unknown(false));
    }
  }

  lemma {:induction false} ArrivingIs(outcome: nat -> Outcome, records: seq<Record>)
    ensures Confirmations(outcome, |records|) <= |Arriving(outcome, records)| <= |records|
    ensures (forall i :: 0 <= i < |records| ==> !outcome(i).Unknown?) ==>
      |Arriving(outcome, records)| == Confirmations(outcome, |records|)
    ensures (forall i :: 0 <= i < |records| ==> outcome(i).Confirmed?) ==>
      Arriving(outcome, records) == records && Confirmations(outcome, |records|) == |records|
  {
    if records == [] {
    } else {
      var n := |records| - 1;
      ArrivingIs(outcome, records[..n]);
      assert records == records[..n] + [records[n]];
    }
  }

  /** What a report tells about the log: no error means that exactly the batch has been appended, a
      temporary error that exactly as many records as were confirmed, and any other that these and
      perhaps more. */
  lemma ReportTells(fate: Fate, records: seq<Record>)
    ensures var r, appended := Delivered(fate, records), Appended(fate, records);
      && (r.error == None <==> Accepts(fate, records))
      && (r.error == None ==> r == PublishResult(|records|, 0, None) && appended == records)
      && (r.error == Some(Temporary) ==> |appended| == r.confirmed)
      && r.confirmed <= |appended| <= |records| == r.confirmed + r.failed
  {
    if fate.Produced? {
      WorstIs(fate.outcome, |records|);
      ArrivingIs(fate.outcome, records);
    }
  }

  /** Those of the first `n` records that met this outcome. */
  function Having(outcome: nat -> Outcome, n: nat, o: Outcome): set<nat> {
    set i: nat | i < n && outcome(i) == o
  }

  lemma CountNext(outcome: nat -> Outcome, n: nat, o: Outcome)
    ensures |Having(outcome, n + 1, o)| == |Having(outcome, n, o)| + if outcome(n) == o then 1 else 0
  {
    var before, after := Having(outcome, n, o), Having(outcome, n + 1, o);
    forall i: nat ensures i in after <==> i in before || (i == n && outcome(n) == o) {}
    assert n !in before;
    if outcome(n) == o { assert after == before + {n}; } else { assert after == before; }
  }

  lemma {:induction false} Counted(outcome: nat -> Outcome, records: seq<Record>)
    ensures Confirmations(outcome, |records|) == |Having(outcome, |records|, Confirmed)|
    ensures |Arriving(outcome, records)| ==
      |Having(outcome, |records|, Confirmed)| + |Having(outcome, |records|, Unknown(true))|
  {
    if records == [] {
    } else {
      var n := |records| - 1;
      Counted(outcome, records[..n]);
      CountNext(outcome, n, Confirmed);
      CountNext(outcome, n, Unknown(true));
    }
  }

  /** What a report says about the records: it is permanent iff the batch could not be encoded or
      Kafka will never take some record, uncertain iff otherwise the fate of some record is unknown,
      temporary iff otherwise some record was refused; and it counts the confirmed ones.  The log
      grows by as many records as were confirmed or have landed unseen. */
  lemma ReportIsExact(outcome: nat -> Outcome, records: seq<Record>)
    ensures Delivered(NotEncoded, records) == PublishResult(0, |records|, Some(Permanent))
    ensures Appended(NotEncoded, records) == []
    ensures var r, n := Delivered(Produced(outcome), records), |records|;
      var unknown := Meets(outcome, n, Unknown(true)) || Meets(outcome, n, Unknown(false));
      && (r.error == Some(Permanent) <==> Meets(outcome, n, Refused(true)))
      && (r.error == Some(Uncertain) <==> !Meets(outcome, n, Refused(true)) && unknown)
      && (r.error == Some(Temporary) <==>
            !Meets(outcome, n, Refused(true)) && !unknown && Meets(outcome, n, Refused(false)))
      && r.confirmed == |Having(outcome, n, Confirmed)|
      && |Appended(Produced(outcome), records)| == |Having(outcome, n, Confirmed)| + |Having(outcome, n, Unknown(true))|
  {
    WorstIs(outcome, |records|);
    Counted(outcome, records);
  }

  class Client {
    var log: seq<Record>

    constructor ()
      ensures log == []
    {
      log := [];
    }

    /** Delivers a batch and waits for the outcome of every record. */
    method Publish(records: seq<Record>, fate: Fate) returns (r: PublishResult)
      modifies this
      ensures r == Delivered(fate, records)
      ensures log == old(log) + Appended(fate, records)
    {
      if fate.NotEncoded? {
        return PublishResult(0, |records|, Some(Permanent));
      }
      r := PublishResult(0, 0, None);
      for i := 0 to |records|
        invariant r.confirmed == Confirmations(fate.outcome, i) && r.failed == i - r.confirmed
        invariant r.error == Worst(fate.outcome, i)
        invariant log == old(log) + Arriving(fate.outcome, records[..i])
      {
        assert records[..i + 1][..i] == records[..i];
        var produced := fate.outcome(i);
        if produced.Arrives() {
          log := log + [records[i]];
        }
        if produced.Confirmed? {
          r := r.(confirmed := r.confirmed + 1);
          continue;
        }
        var kind := produced.Class().value;
        r := r.(failed := r.failed + 1);
        if r.error == None || kind.Rank() > r.error.value.Rank() {
          r := r.(error := Some(kind));
        }
      }
      assert records[..|records|] == records;
    }
  }
}
