/** The price of at-least-once delivery: when the recorder publishes a batch that Kafka has already
    confirmed, and how often. */
module Repeats {
  import opened Gate
  import opened RecorderProtocol

  // ---- Where a confirmed batch can be ------------------------------------------------------

  predicate Distinct(wal: seq<Id>) {
    forall i, j :: 0 <= i < j < |wal| ==> wal[i] != wal[j]
  }

  /** The batch's `Write` has not got an answer from Kafka, nor reached the queue. */
  predicate OnItsWay(p: Phase) {
    p.Sampled? || p.KafkaAdmitted? || p.KafkaCalled? || p.QueueAdmitted? || (p.KafkaAnswered? && !p.ok)
  }

  /** The replay's batch is at the front of the queue. */
  predicate AtFront(s: State) {
    (s.replay.Fetched? || s.replay.Called? || s.replay.Confirmed? || s.replay.Acknowledged? || s.replay.Refused? ==>
       s.replay.batch <= s.wal)
  }

  predicate KnownBatches(s: State) {
    && s.acked <= s.before.Keys && Elements(s.wal) <= s.before.Keys
    && (forall w <- s.phase :: w in s.before)
  }

  /** A batch on its way is neither confirmed nor queued, and one that Kafka has answered for is not
      queued. */
  predicate Apart(s: State) {
    && (forall w <- s.phase :: OnItsWay(s.phase[w]) ==> w !in s.acked && w !in s.wal)
    && (forall w <- s.phase :: s.phase[w].KafkaAnswered? ==> w !in s.wal)
  }

  /** No batch is queued twice, all are known to the histories, and those on their way are apart from
      those that have arrived. */
  predicate Tidy(s: State) {
    Distinct(s.wal) && AtFront(s) && KnownBatches(s) && Apart(s)
  }

  lemma StartTidy(wal: seq<Id>)
    requires Distinct(wal)
    ensures Tidy(Start(wal))
  {
  }

  lemma FrontInQueue(batch: seq<Id>, wal: seq<Id>, w: Id)
    requires batch <= wal && w in batch
    ensures w in wal
  {
    var i :| 0 <= i < |batch| && batch[i] == w;
    assert wal[i] == w;
  }

  /** What is left of a queue without repetitions holds nothing of its front. */
  lemma RestIsOther(wal: seq<Id>, n: nat)
    requires n <= |wal| && Distinct(wal)
    ensures Distinct(wal[n..]) && forall w :: w in wal[n..] ==> w in wal && w !in wal[..n]
  {
  }

  lemma NextQueue(s: State, a: Action)
    requires Tidy(s) && Enabled(s, a)
    ensures Distinct(Next(s, a).wal) && AtFront(Next(s, a))
  {
    if a.Commit? { RestIsOther(s.wal, |s.replay.batch|); }
  }

  lemma NextKnown(s: State, a: Action)
    requires Tidy(s) && Enabled(s, a)
    ensures KnownBatches(Next(s, a))
  {
    if a.AnswerReplay? {
      forall w | w in s.replay.batch ensures w in s.wal { FrontInQueue(s.replay.batch, s.wal, w); }
    }
  }

  lemma NextApart(s: State, a: Action)
    requires Tidy(s) && Enabled(s, a)
    ensures Apart(Next(s, a))
  {
    match a
    case AnswerReplay(_, _) =>
      forall w | w in s.replay.batch ensures w in s.wal { FrontInQueue(s.replay.batch, s.wal, w); }
    case Commit(_) => RestIsOther(s.wal, |s.replay.batch|);
    case _ =>
  }

  lemma NextTidy(s: State, a: Action)
    requires Tidy(s) && Enabled(s, a)
    ensures Tidy(Next(s, a))
  {
    NextQueue(s, a);
    NextKnown(s, a);
    NextApart(s, a);
  }

  // ---- Without crashes and failed commits --------------------------------------------------

  /** The replay holds the batch as confirmed and has still to remove it. */
  predicate BeingRemoved(s: State, w: Id) {
    (s.replay.Confirmed? || s.replay.Acknowledged?) && w in s.replay.batch
  }

  /** A queued batch is confirmed only while the replay is about to remove it, and no publisher call
      so far carried a batch that was confirmed already. */
  predicate Fresh(s: State) {
    && (forall w <- s.wal :: w in s.acked ==> BeingRemoved(s, w))
    && (forall call <- s.calls :: FreshCall(call))
  }

  predicate FreshCall(call: Call) {
    forall w <- call.batch :: w !in call.ackedBefore
  }

  /** A crash, or a commit that fails after Kafka has confirmed the batch. */
  predicate Forgets(a: Action) {
    a.Crash? || (a.Commit? && !a.ok)
  }

  lemma NextFresh(s: State, a: Action)
    requires Tidy(s) && Fresh(s) && Enabled(s, a) && !Forgets(a)
    ensures Fresh(Next(s, a))
  {
    match a
    case CallReplay =>
      forall w | w in s.replay.batch ensures w !in s.acked { FrontInQueue(s.replay.batch, s.wal, w); }
    case Commit(_) => RestIsOther(s.wal, |s.replay.batch|);
    case _ =>
  }

  lemma {:induction false} ExecFresh(s: State, actions: seq<Action>)
    requires Tidy(s) && Fresh(s) && CanRun(s, actions) && forall a <- actions :: !Forgets(a)
    ensures Fresh(Exec(s, actions))
    decreases |actions|
  {
    if actions == [] {
    } else {
      assert actions[0] in actions;
      NextTidy(s, actions[0]);
      NextFresh(s, actions[0]);
      ExecFresh(Next(s, actions[0]), actions[1..]);
    }
  }

  /** Exactly once, short of losing memory: in a run without crashes and failed commits no publisher
      call carries a batch that Kafka had confirmed before. */
  lemma NothingIsRepeated(wal: seq<Id>, actions: seq<Action>, call: Call, w: Id)
    requires Distinct(wal) && CanRun(Start(wal), actions) && forall a <- actions :: !Forgets(a)
    requires call in Exec(Start(wal), actions).calls && w in call.batch
    ensures w !in call.ackedBefore
  {
    StartTidy(wal);
    ExecFresh(Start(wal), actions);
    assert FreshCall(call);
  }

  // ---- How often a batch is repeated -------------------------------------------------------

  /** The publisher calls that carried the batch although it was confirmed. */
  function Repeated(calls: seq<Call>, w: Id): nat {
    if calls == [] then 0 else
    var last := calls[|calls| - 1];
    Repeated(calls[..|calls| - 1], w) + if w in last.batch && w in last.ackedBefore then 1 else 0
  }

  /** The batch is confirmed and queued, and no call or commit of it is under way: the replay will
      publish it again. */
  predicate WillRepeat(s: State, w: Id) {
    && w in s.acked && w in s.wal
    && !((s.replay.Called? || s.replay.Confirmed? || s.replay.Acknowledged?) && w in s.replay.batch)
  }

  /** A crash, a failed commit, or a replay that Kafka does not confirm. */
  predicate Disturbs(a: Action) {
    Forgets(a) || (a.AnswerReplay? && !a.ok)
  }

  function Disturbances(actions: seq<Action>): nat
    decreases |actions|
  {
    if actions == [] then 0 else (if Disturbs(actions[0]) then 1 else 0) + Disturbances(actions[1..])
  }

  /** The repetitions so far, and the one that is due. */
  function Due(s: State, w: Id): nat {
    Repeated(s.calls, w) + if WillRepeat(s, w) then 1 else 0
  }

  lemma RepeatedSnoc(calls: seq<Call>, call: Call, w: Id)
    ensures Repeated(calls + [call], w) ==
      Repeated(calls, w) + if w in call.batch && w in call.ackedBefore then 1 else 0
  {
    assert (calls + [call])[..|calls|] == calls;
  }

  /** The step is a publisher call that carries the batch although it is confirmed. */
  predicate RepeatsNow(s: State, a: Action, w: Id) {
    a.CallReplay? && s.replay.Fetched? && w in s.replay.batch && w in s.acked
  }

  lemma NextRepeated(s: State, a: Action, w: Id)
    requires Tidy(s) && Enabled(s, a)
    ensures Repeated(Next(s, a).calls, w) == Repeated(s.calls, w) + if RepeatsNow(s, a, w) then 1 else 0
  {
    match a
    case CallKafka(v) => RepeatedSnoc(s.calls, Call([v], s.acked), w);
    case CallReplay => RepeatedSnoc(s.calls, Call(s.replay.batch, s.acked), w);
    case _ =>
  }

  /** A repetition was due and is no longer; without a disturbance none becomes due. */
  lemma NextWillRepeat(s: State, a: Action, w: Id)
    requires Tidy(s) && Enabled(s, a)
    ensures RepeatsNow(s, a, w) ==> WillRepeat(s, w) && !WillRepeat(Next(s, a), w)
    ensures WillRepeat(Next(s, a), w) && !Disturbs(a) ==> WillRepeat(s, w)
  {
    match a
    case CallReplay =>
      if w in s.replay.batch { FrontInQueue(s.replay.batch, s.wal, w); }
    case Commit(_) => RestIsOther(s.wal, |s.replay.batch|);
    case _ =>
  }

  /** Only a disturbance makes one more repetition due. */
  lemma NextDue(s: State, a: Action, w: Id)
    requires Tidy(s) && Enabled(s, a)
    ensures Due(Next(s, a), w) <= Due(s, w) + if Disturbs(a) then 1 else 0
  {
    NextRepeated(s, a, w);
    NextWillRepeat(s, a, w);
  }

  lemma {:induction false} ExecDue(s: State, actions: seq<Action>, w: Id)
    requires Tidy(s) && CanRun(s, actions)
    ensures Due(Exec(s, actions), w) <= Due(s, w) + Disturbances(actions)
    decreases |actions|
  {
    if actions == [] {
    } else {
      NextTidy(s, actions[0]);
      NextDue(s, actions[0], w);
      ExecDue(Next(s, actions[0]), actions[1..], w);
    }
  }

  /** In every run each repetition of a batch is paid for by a crash, a failed commit or a replay that
      was not confirmed. */
  lemma RepeatsAreBounded(wal: seq<Id>, actions: seq<Action>, w: Id)
    requires Distinct(wal) && CanRun(Start(wal), actions)
    ensures Repeated(Exec(Start(wal), actions).calls, w) <= Disturbances(actions)
  {
    StartTidy(wal);
    ExecDue(Start(wal), actions, w);
  }

  // ---- Both causes are real ----------------------------------------------------------------

  lemma Prepend(s: State, a: Action, rest: seq<Action>)
    requires Enabled(s, a) && CanRun(Next(s, a), rest)
    ensures CanRun(s, [a] + rest) && Exec(s, [a] + rest) == Exec(Next(s, a), rest)
    ensures Disturbances([a] + rest) == Disturbances(rest) + if Disturbs(a) then 1 else 0
  {
    assert ([a] + rest)[1..] == rest;
  }

  /** The replay takes the only batch of the queue and starts to publish it. */
  lemma Publishes(s: State, w: Id)
    requires s.replay.Idle? && s.wal == [w]
    ensures var actions := [Fetch(1), CallReplay];
      && CanRun(s, actions) && Disturbances(actions) == 0
      && Exec(s, actions) == s.(replay := Called([w]), calls := s.calls + [Call([w], s.acked)])
  {
    var t := Next(s, Fetch(1));
    assert s.wal[..1] == [w];
    assert CanRun(Next(t, CallReplay), []);
    Prepend(t, CallReplay, []);
    assert [CallReplay] + [] == [CallReplay];
    Prepend(s, Fetch(1), [CallReplay]);
    assert [Fetch(1)] + [CallReplay] == [Fetch(1), CallReplay];
  }

  /** After Kafka has confirmed the batch and the process has crashed, the batch is published again. */
  lemma CrashRepeats(w: Id)
    ensures var s := Start([w]).(replay := Called([w]), calls := [Call([w], {})]);
      var actions := [AnswerReplay(true, false)] + ([Crash] + [Fetch(1), CallReplay]);
      && CanRun(s, actions) && Disturbances(actions) == 1 && Repeated(Exec(s, actions).calls, w) == 1
  {
    var s := Start([w]).(replay := Called([w]), calls := [Call([w], {})]);
    var confirmed := Next(s, AnswerReplay(true, false));
    var restarted := Next(confirmed, Crash);
    Publishes(restarted, w);
    Prepend(confirmed, Crash, [Fetch(1), CallReplay]);
    Prepend(s, AnswerReplay(true, false), [Crash] + [Fetch(1), CallReplay]);
    SecondIsRepeated(w);
  }

  /** A commit that fails, and the next replay. */
  function Retry(): seq<Action> {
    [AcknowledgeReplay] + ([Commit(false)] + ([SettleCommit] + [Fetch(1), CallReplay]))
  }

  lemma RetryPublishes(s: State, w: Id)
    requires s.replay == Confirmed([w]) && s.wal == [w]
    ensures CanRun(s, Retry()) && Disturbances(Retry()) == 1
    ensures Exec(s, Retry()).calls == s.calls + [Call([w], s.acked)]
  {
    var known := Next(s, AcknowledgeReplay);
    var failed := Next(known, Commit(false));
    Publishes(Next(failed, SettleCommit), w);
    Prepend(failed, SettleCommit, [Fetch(1), CallReplay]);
    Prepend(known, Commit(false), [SettleCommit] + [Fetch(1), CallReplay]);
    Prepend(s, AcknowledgeReplay, [Commit(false)] + ([SettleCommit] + [Fetch(1), CallReplay]));
  }

  /** So it is when the commit fails. */
  lemma FailedCommitRepeats(w: Id)
    ensures var s := Start([w]).(replay := Called([w]), calls := [Call([w], {})]);
      var actions := [AnswerReplay(true, false)] + Retry();
      && CanRun(s, actions) && Disturbances(actions) == 1 && Repeated(Exec(s, actions).calls, w) == 1
  {
    var s := Start([w]).(replay := Called([w]), calls := [Call([w], {})]);
    RetryPublishes(Next(s, AnswerReplay(true, false)), w);
    Prepend(s, AnswerReplay(true, false), Retry());
    SecondIsRepeated(w);
  }

  lemma SecondIsRepeated(w: Id)
    ensures Repeated([Call([w], {})] + [Call([w], {} + Elements([w]))], w) == 1
  {
    RepeatedSnoc([], Call([w], {}), w);
    RepeatedSnoc([Call([w], {})], Call([w], {} + Elements([w])), w);
    assert [] + [Call([w], {})] == [Call([w], {})];
  }

  /** The state those runs start from is reached: the replay has called Kafka for the first time. */
  lemma FirstCall(w: Id)
    ensures CanRun(Start([w]), [Fetch(1), CallReplay])
    ensures Exec(Start([w]), [Fetch(1), CallReplay]) == Start([w]).(replay := Called([w]), calls := [Call([w], {})])
  {
    Publishes(Start([w]), w);
  }
}
