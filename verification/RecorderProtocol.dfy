/** The request recorder as a state machine over its atomic steps.

    Any number of `Write` calls run concurrently with one replayer.  A step is one critical
    section of the gate's lock, one disk-queue operation, or the start or the answer of one Kafka
    call; steps of different calls interleave freely, every failure is possible, and the process
    may crash and restart between any two steps.  A `Write` call is identified with its batch. */
module RecorderProtocol {
  import opened Wrappers
  import opened Gate

  type Id = nat

  /** How far a `Write` call has come. */
  datatype Phase =
    | Sampled(compliant: bool)                       // the topic status has been read
    | KafkaAdmitted
    | KafkaCalled
    | KafkaAnswered(ok: bool)
    | QueueAdmitted
    | QueueAnswered(ok: bool, available: bool)
    | Returned(ok: bool)
  {
    predicate InKafka() { KafkaAdmitted? || KafkaCalled? || KafkaAnswered? }
    predicate InQueue() { QueueAdmitted? || QueueAnswered? }
  }

  /** How far the replayer has come with the batches it took from the front of the queue. */
  datatype Replay =
    | Idle
    | Fetched(batch: seq<Id>)
    | Called(batch: seq<Id>)
    | Confirmed(batch: seq<Id>)                      // Publish succeeded
    | Acknowledged(batch: seq<Id>)                   // the gate knows
    | Removed(ok: bool)                              // Queue.Commit has answered
    | Refused(batch: seq<Id>, permanent: bool)

  /** One call of the Kafka publisher, with the batches Kafka had confirmed when it started. */
  datatype Call = Call(batch: seq<Id>, ackedBefore: set<Id>)

  datatype State = State(
    gate: Gate,
    phase: map<Id, Phase>,        // the `Write` calls of the running process
    wal: seq<Id>,                 // the batches in the disk queue, oldest first
    replay: Replay,
    acked: set<Id>,               // history: batches Kafka has confirmed completely
    accepted: set<Id>,            // history: calls that returned without an error
    before: map<Id, set<Id>>,     // history: for each call, the calls accepted before it began
    calls: seq<Call>)             // history: the publisher calls, oldest first

  function KafkaFlights(phase: map<Id, Phase>): set<Id> {
    set w | w in phase && phase[w].InKafka()
  }

  function QueueFlights(phase: map<Id, Phase>): set<Id> {
    set w | w in phase && phase[w].InQueue()
  }

  datatype Action =
    | Begin(w: Id, compliant: bool)                  // Write: read the topic status
    | Reserve(w: Id)                                 // reserveWriteTarget
    | CallKafka(w: Id)                               // Publish starts
    | AnswerKafka(w: Id, ok: bool)                   // Publish returns
    | SettleKafka(w: Id)                             // completeKafkaWrite or failKafkaWrite
    | Append(w: Id, ok: bool, available: bool)       // Queue.Write
    | SettleQueue(w: Id)                             // finishQueueWrite
    | Fetch(count: nat)                              // Queue.Read
    | CallReplay                                     // Publish of the fetched batches starts
    | AnswerReplay(ok: bool, permanent: bool)        // Publish returns
    | SettleRefused                                  // replayFailed
    | AcknowledgeReplay                              // replaySucceeded
    | Commit(ok: bool)                               // Queue.Commit
    | SettleCommit                                   // queueSucceeded or queueFailed
    | StartSpooling                                  // the replayer finds the topic not compliant
    | MarkQueue(ok: bool)                            // queueSucceeded or queueFailed around Queue.Read
    | Resume(compliant: bool)                        // resumeKafkaWrites
    | Crash                                          // the process dies; the next one opens the queue

  function Start(wal: seq<Id>): State {
    State(Gate.Initial(wal != []), map[], wal, Idle, {}, Elements(wal), map w <- wal :: {}, [])
  }

  function Elements(s: seq<Id>): set<Id> {
    set w <- s
  }

  /** Whether the code can take a step in a state. */
  predicate Enabled(s: State, a: Action) {
    match a
    case Begin(w, _) => w !in s.before
    case Reserve(w) => w in s.phase && s.phase[w].Sampled?
    case CallKafka(w) => w in s.phase && s.phase[w].KafkaAdmitted?
    case AnswerKafka(w, _) => w in s.phase && s.phase[w].KafkaCalled?
    case SettleKafka(w) => w in s.phase && s.phase[w].KafkaAnswered?
    case Append(w, ok, available) => w in s.phase && s.phase[w].QueueAdmitted? && (ok ==> available)
    case SettleQueue(w) => w in s.phase && s.phase[w].QueueAnswered?
    case Fetch(count) => s.replay.Idle? && 1 <= count <= |s.wal|
    case CallReplay => s.replay.Fetched?
    case AnswerReplay(_, _) => s.replay.Called?
    case SettleRefused => s.replay.Refused?
    case AcknowledgeReplay => s.replay.Confirmed?
    case Commit(_) => s.replay.Acknowledged? && |s.replay.batch| <= |s.wal|
    case SettleCommit => s.replay.Removed?
    case StartSpooling | MarkQueue(_) | Resume(_) => s.replay.Idle?
    case Crash => true
  }

  /** The state after a step. */
  function Next(s: State, a: Action): State
    requires Enabled(s, a)
  {
    match a
    case Begin(w, compliant) =>
      s.(phase := s.phase[w := Sampled(compliant)], before := s.before[w := s.accepted])
    case Reserve(w) =>
      var compliant := s.phase[w].compliant;
      s.(gate := s.gate.Reserve(compliant),
         phase := s.phase[w := if s.gate.Choose(compliant).KafkaTarget? then KafkaAdmitted else QueueAdmitted])
    case CallKafka(w) =>
      s.(phase := s.phase[w := KafkaCalled], calls := s.calls + [Call([w], s.acked)])
    case AnswerKafka(w, ok) =>
      s.(phase := s.phase[w := KafkaAnswered(ok)], acked := if ok then s.acked + {w} else s.acked)
    case SettleKafka(w) =>
      if s.phase[w].ok then
        s.(gate := s.gate.CompleteKafka(), phase := s.phase[w := Returned(true)], accepted := s.accepted + {w})
      else
        s.(gate := s.gate.FailKafka(), phase := s.phase[w := QueueAdmitted])
    case Append(w, ok, available) =>
      s.(phase := s.phase[w := QueueAnswered(ok, available)], wal := if ok then s.wal + [w] else s.wal)
    case SettleQueue(w) =>
      var ok := s.phase[w].ok;
      s.(gate := s.gate.FinishQueue(s.phase[w].available), phase := s.phase[w := Returned(ok)],
         accepted := if ok then s.accepted + {w} else s.accepted)
    case Fetch(count) => s.(replay := Fetched(s.wal[..count]))
    case CallReplay =>
      s.(replay := Called(s.replay.batch), calls := s.calls + [Call(s.replay.batch, s.acked)])
    case AnswerReplay(ok, permanent) =>
      if ok then s.(replay := Confirmed(s.replay.batch), acked := s.acked + Elements(s.replay.batch))
      else s.(replay := Refused(s.replay.batch, permanent))
    case SettleRefused => s.(gate := s.gate.ReplayFailed(s.replay.permanent), replay := Idle)
    case AcknowledgeReplay => s.(gate := s.gate.(kafkaOK := true), replay := Acknowledged(s.replay.batch))
    case Commit(ok) =>
      s.(replay := Removed(ok), wal := if ok then s.wal[|s.replay.batch|..] else s.wal)
    case SettleCommit => s.(gate := s.gate.(queueOK := s.replay.ok), replay := Idle)
    case StartSpooling => s.(gate := s.gate.(spooling := true))
    case MarkQueue(ok) => s.(gate := s.gate.(queueOK := ok))
    case Resume(compliant) => s.(gate := s.gate.Resume(compliant, s.wal == []))
    case Crash => s.(gate := Gate.Initial(s.wal != []), phase := map[], replay := Idle)
  }

  /** Whether the steps can be taken one after the other. */
  predicate CanRun(s: State, actions: seq<Action>)
    decreases |actions|
  {
    actions == [] || (Enabled(s, actions[0]) && CanRun(Next(s, actions[0]), actions[1..]))
  }

  function Exec(s: State, actions: seq<Action>): State
    requires CanRun(s, actions)
    decreases |actions|
  {
    if actions == [] then s else Exec(Next(s, actions[0]), actions[1..])
  }

  // ---- The invariant -----------------------------------------------------------------------

  /** The counters count the calls in flight. */
  predicate Counted(s: State) {
    && s.gate.kafkaWrites == |KafkaFlights(s.phase)|
    && s.gate.queueWrites == |QueueFlights(s.phase)|
  }

  /** Without the barrier the queue is empty and nothing is on its way into it. */
  predicate Barrier(s: State) {
    !s.gate.spooling ==> s.gate.queueWrites == 0 && s.wal == []
  }

  /** Every accepted batch has been confirmed by Kafka or is in the queue. */
  predicate Kept(s: State) {
    forall w <- s.accepted :: w in s.acked || w in s.wal
  }

  /** `p` is confirmed, or comes earlier in `batch` than position `i`. */
  predicate Earlier(acked: set<Id>, batch: seq<Id>, i: nat, p: Id)
    requires i <= |batch|
  {
    p in acked || p in batch[..i]
  }

  /** Each batch in the list has all batches accepted before it began confirmed or ahead of it. */
  predicate InOrder(before: map<Id, set<Id>>, acked: set<Id>, batch: seq<Id>) {
    forall i :: 0 <= i < |batch| ==>
      batch[i] in before && forall p <- before[batch[i]] :: Earlier(acked, batch, i, p)
  }

  predicate Histories(s: State) {
    && (forall w <- s.phase :: w in s.before)
    && (forall w <- s.before :: s.before[w] <= s.accepted)
    && s.accepted <= s.before.Keys
  }

  predicate Flights(s: State) {
    forall w <- s.phase ::
      match s.phase[w]
      case KafkaAdmitted | KafkaCalled => w in s.before && s.before[w] <= s.acked
      case KafkaAnswered(ok) => w in s.before && s.before[w] <= s.acked && (ok ==> w in s.acked)
      case QueueAnswered(ok, _) => ok ==> w in s.acked || w in s.wal
      case _ => true
  }

  predicate Replaying(s: State) {
    s.replay.Idle? || s.replay.Removed? ||
    (&& s.replay.batch != []
     && s.replay.batch <= s.wal
     && (s.replay.Confirmed? || s.replay.Acknowledged? ==> Elements(s.replay.batch) <= s.acked))
  }

  predicate OrderedCalls(s: State) {
    forall call <- s.calls :: InOrder(s.before, call.ackedBefore, call.batch)
  }

  /** A paused replay keeps the barrier up. */
  predicate Paused(s: State) {
    s.gate.replayPaused ==> s.gate.spooling
  }

  predicate Inv(s: State) {
    && Histories(s)
    && Flights(s)
    && Counted(s)
    && Barrier(s)
    && Paused(s)
    && Kept(s)
    && InOrder(s.before, s.acked, s.wal)
    && Replaying(s)
    && OrderedCalls(s)
  }

  // ---- Every step keeps the invariant ------------------------------------------------------

  lemma NextHistories(s: State, a: Action)
    requires Inv(s) && Enabled(s, a)
    ensures Histories(Next(s, a))
  {
  }

  lemma NextFlights(s: State, a: Action)
    requires Inv(s) && Enabled(s, a)
    ensures Flights(Next(s, a))
  {
  }

  /** Moving one call to another phase moves at most that call in or out of the flights. */
  lemma Moved(phase: map<Id, Phase>, w: Id, p: Phase)
    ensures |KafkaFlights(phase[w := p])| ==
      |KafkaFlights(phase)| + (if p.InKafka() then 1 else 0) - (if w in KafkaFlights(phase) then 1 else 0)
    ensures |QueueFlights(phase[w := p])| ==
      |QueueFlights(phase)| + (if p.InQueue() then 1 else 0) - (if w in QueueFlights(phase) then 1 else 0)
  {
    MovedKafka(phase, w, p);
    MovedQueue(phase, w, p);
  }

  lemma MovedKafka(phase: map<Id, Phase>, w: Id, p: Phase)
    ensures |KafkaFlights(phase[w := p])| ==
      |KafkaFlights(phase)| + (if p.InKafka() then 1 else 0) - (if w in KafkaFlights(phase) then 1 else 0)
  {
    var others, after := KafkaFlights(phase) - {w}, KafkaFlights(phase[w := p]);
    forall x ensures x in after <==> x in others || (x == w && p.InKafka()) {}
    assert after - {w} == others;
    if p.InKafka() { assert after == others + {w}; } else { assert after == others; }
  }

  lemma MovedQueue(phase: map<Id, Phase>, w: Id, p: Phase)
    ensures |QueueFlights(phase[w := p])| ==
      |QueueFlights(phase)| + (if p.InQueue() then 1 else 0) - (if w in QueueFlights(phase) then 1 else 0)
  {
    var others, after := QueueFlights(phase) - {w}, QueueFlights(phase[w := p]);
    forall x ensures x in after <==> x in others || (x == w && p.InQueue()) {}
    assert after - {w} == others;
    if p.InQueue() { assert after == others + {w}; } else { assert after == others; }
  }

  lemma NextCounted(s: State, a: Action)
    requires Histories(s) && Counted(s) && Enabled(s, a)
    ensures Counted(Next(s, a))
  {
    var t := Next(s, a);
    match a
    case Begin(w, _) => Moved(s.phase, w, t.phase[w]);
    case Reserve(w) => Moved(s.phase, w, t.phase[w]);
    case CallKafka(w) => Moved(s.phase, w, t.phase[w]);
    case AnswerKafka(w, _) => Moved(s.phase, w, t.phase[w]);
    case SettleKafka(w) => Moved(s.phase, w, t.phase[w]);
    case Append(w, _, _) => Moved(s.phase, w, t.phase[w]);
    case SettleQueue(w) => Moved(s.phase, w, t.phase[w]);
    case Crash => assert KafkaFlights(t.phase) == {} && QueueFlights(t.phase) == {};
    case _ =>
  }

  lemma NextBarrier(s: State, a: Action)
    requires Inv(s) && Enabled(s, a)
    ensures Barrier(Next(s, a))
  {
    if a.Append? || a.SettleQueue? {
      assert a.w in QueueFlights(s.phase);
    }
  }

  lemma NextKept(s: State, a: Action)
    requires Inv(s) && Enabled(s, a)
    ensures Kept(Next(s, a))
  {
  }

  lemma NextInOrder(s: State, a: Action)
    requires Inv(s) && Enabled(s, a)
    ensures InOrder(Next(s, a).before, Next(s, a).acked, Next(s, a).wal)
  {
    var t := Next(s, a);
    match a
    case Append(w, ok, _) =>
      if ok { OrderAppended(s, w); }
    case Commit(ok) =>
      if ok { OrderCommitted(s.before, s.acked, s.wal, |s.replay.batch|); }
    case _ =>
      OrderMonotone(s.before, t.before, s.acked, t.acked, s.wal);
  }

  lemma OrderMonotone(before: map<Id, set<Id>>, before': map<Id, set<Id>>, acked: set<Id>, acked': set<Id>,
                      batch: seq<Id>)
    requires InOrder(before, acked, batch) && acked <= acked'
    requires forall w <- before :: w in before' && before'[w] == before[w]
    ensures InOrder(before', acked', batch)
  {
  }

  lemma OrderAppended(s: State, w: Id)
    requires Histories(s) && Kept(s) && w in s.before
    requires InOrder(s.before, s.acked, s.wal)
    ensures InOrder(s.before, s.acked, s.wal + [w])
  {
    var wal := s.wal + [w];
    forall i, p | 0 <= i < |wal| && p in s.before[wal[i]] ensures Earlier(s.acked, wal, i, p) {
      assert wal[..i] == s.wal[..i];
      assert i < |s.wal| ==> wal[i] == s.wal[i];
      assert s.wal[..|s.wal|] == s.wal;
    }
  }

  lemma OrderCommitted(before: map<Id, set<Id>>, acked: set<Id>, wal: seq<Id>, n: nat)
    requires n <= |wal| && InOrder(before, acked, wal)
    requires forall w <- wal[..n] :: w in acked
    ensures InOrder(before, acked, wal[n..])
  {
    var rest := wal[n..];
    forall i, p | 0 <= i < |rest| && p in before[rest[i]] ensures Earlier(acked, rest, i, p) {
      assert Earlier(acked, wal, n + i, p);
      assert wal[..n + i] == wal[..n] + rest[..i];
    }
  }

  lemma NextReplaying(s: State, a: Action)
    requires Inv(s) && Enabled(s, a)
    ensures Replaying(Next(s, a))
  {
  }

  lemma NextOrderedCalls(s: State, a: Action)
    requires Inv(s) && Enabled(s, a)
    ensures OrderedCalls(Next(s, a))
  {
  }

  lemma NextInv(s: State, a: Action)
    requires Inv(s) && Enabled(s, a)
    ensures Inv(Next(s, a))
  {
    NextHistories(s, a);
    NextFlights(s, a);
    NextCounted(s, a);
    NextBarrier(s, a);
    NextKept(s, a);
    NextInOrder(s, a);
    NextReplaying(s, a);
    NextOrderedCalls(s, a);
  }

  lemma {:induction false} ExecInv(s: State, actions: seq<Action>)
    requires Inv(s) && CanRun(s, actions)
    ensures Inv(Exec(s, actions))
    decreases |actions|
  {
    if actions == [] {
    } else {
      NextInv(s, actions[0]);
      ExecInv(Next(s, actions[0]), actions[1..]);
    }
  }

  lemma RunInv(wal: seq<Id>, actions: seq<Action>)
    requires CanRun(Start(wal), actions)
    ensures Inv(Exec(Start(wal), actions))
  {
    ExecInv(Start(wal), actions);
  }

  // ---- What holds in every run -------------------------------------------------------------

  /** Nothing that was accepted or confirmed is forgotten. */
  lemma {:induction false} ExecGrows(s: State, actions: seq<Action>)
    requires CanRun(s, actions)
    ensures s.accepted <= Exec(s, actions).accepted && s.acked <= Exec(s, actions).acked
    decreases |actions|
  {
    if actions == [] {
    } else {
      ExecGrows(Next(s, actions[0]), actions[1..]);
    }
  }

  /** At-least-once delivery: at every point of every run, whatever fails and however often the
      process crashes, each batch that `Write` accepted, or that the queue held at the start, is
      confirmed by Kafka or in the queue. */
  lemma NothingAcceptedIsLost(wal: seq<Id>, actions: seq<Action>)
    requires CanRun(Start(wal), actions)
    ensures var s := Exec(Start(wal), actions);
      && (forall w <- s.accepted :: w in s.acked || w in s.wal)
      && forall w <- wal :: w in s.acked || w in s.wal
  {
    RunInv(wal, actions);
    ExecGrows(Start(wal), actions);
  }

  /** The states agree on what the step's own call, or the replayer, has come to. */
  predicate SameForStep(s: State, t: State, a: Action) {
    match a
    case Begin(w, _) => w in s.before <==> w in t.before
    case Reserve(w) => SamePhase(s, t, w)
    case CallKafka(w) => SamePhase(s, t, w)
    case AnswerKafka(w, _) => SamePhase(s, t, w)
    case SettleKafka(w) => SamePhase(s, t, w)
    case Append(w, _, _) => SamePhase(s, t, w)
    case SettleQueue(w) => SamePhase(s, t, w)
    case Crash => true
    case _ => s.replay == t.replay && s.wal == t.wal
  }

  predicate SamePhase(s: State, t: State, w: Id) {
    (w in s.phase <==> w in t.phase) && (w in s.phase ==> s.phase[w] == t.phase[w])
  }

  /** Steps interleave freely: whether a call or the replayer can take its next step depends on no other
      call and not on the gate, and a crash can come at any point. */
  lemma StepsAreIndependent(s: State, t: State, a: Action)
    requires SameForStep(s, t, a)
    ensures Enabled(s, a) <==> Enabled(t, a)
    ensures Enabled(s, Crash)
  {
  }

  /** The failure barrier: while new batches may go straight to Kafka, nothing older waits in the
      queue or is on its way into it, and everything accepted so far is confirmed. */
  lemma DirectWritesOvertakeNothing(wal: seq<Id>, actions: seq<Action>)
    requires CanRun(Start(wal), actions)
    requires !Exec(Start(wal), actions).gate.spooling
    ensures var s := Exec(Start(wal), actions);
      s.wal == [] && QueueFlights(s.phase) == {} && s.accepted <= s.acked
  {
    RunInv(wal, actions);
  }

  /** Publication order: whenever a Kafka call carries a batch, every batch accepted before that
      batch's `Write` began is already confirmed, or is carried ahead of it by the same call. */
  lemma PublicationOrder(wal: seq<Id>, actions: seq<Action>, call: Call, i: nat, p: Id)
    requires CanRun(Start(wal), actions)
    requires call in Exec(Start(wal), actions).calls && i < |call.batch|
    requires var before := Exec(Start(wal), actions).before;
      call.batch[i] in before && p in before[call.batch[i]]
    ensures p in call.ackedBefore || p in call.batch[..i]
  {
    RunInv(wal, actions);
    var s := Exec(Start(wal), actions);
    assert Earlier(call.ackedBefore, call.batch, i, p);
  }

  /** A step lifts the barrier if and only if it is a recovery on a compliant topic that finds nothing
      in flight, nothing queued and no paused replay, or a restart over an empty queue. */
  lemma BarrierLifts(wal: seq<Id>, actions: seq<Action>, a: Action)
    requires CanRun(Start(wal), actions)
    requires var s := Exec(Start(wal), actions);
      Enabled(s, a) && s.gate.spooling
    ensures var s := Exec(Start(wal), actions);
      !Next(s, a).gate.spooling <==>
      && s.wal == []
      && (a.Crash? || (a.Resume? && a.compliant && KafkaFlights(s.phase) == {} && QueueFlights(s.phase) == {}
                       && !s.gate.replayPaused))
  {
    RunInv(wal, actions);
  }

  /** A step puts the barrier up if and only if it admits a batch on a topic that is not compliant,
      settles a direct write that failed, or finds the topic not compliant before a replay. */
  lemma BarrierRises(wal: seq<Id>, actions: seq<Action>, a: Action)
    requires CanRun(Start(wal), actions)
    requires var s := Exec(Start(wal), actions);
      Enabled(s, a) && !s.gate.spooling
    ensures var s := Exec(Start(wal), actions);
      Next(s, a).gate.spooling <==>
      match a
      case Reserve(w) => s.phase[w] == Sampled(false)
      case SettleKafka(w) => s.phase[w] == KafkaAnswered(false)
      case StartSpooling => true
      case _ => false
  {
    RunInv(wal, actions);
  }

  // ---- What the gate knows about Kafka and the disk ----------------------------------------

  /** What a step says about Kafka: a settled call says how it went, save that a direct write which
      succeeds behind the barrier says nothing; a restart knows nothing good. */
  function KafkaWord(s: State, a: Action): Option<bool>
    requires Enabled(s, a)
  {
    match a
    case SettleKafka(w) => if !s.phase[w].ok then Some(false) else if s.gate.spooling then None else Some(true)
    case AcknowledgeReplay => Some(true)
    case SettleRefused | Crash => Some(false)
    case _ => None
  }

  /** What a step says about the disk queue; a restart has just opened it. */
  function QueueWord(s: State, a: Action): Option<bool>
    requires Enabled(s, a)
  {
    match a
    case SettleQueue(w) => Some(s.phase[w].available)
    case SettleCommit => Some(s.replay.ok)
    case MarkQueue(ok) => Some(ok)
    case Crash => Some(true)
    case _ => None
  }

  function Latest(word: Option<bool>, before: bool): bool {
    if word.Some? then word.value else before
  }

  /** The last words of a run about Kafka and about the disk queue. */
  function LastWords(s: State, actions: seq<Action>, kafka: bool, queue: bool): (bool, bool)
    requires CanRun(s, actions)
    decreases |actions|
  {
    if actions == [] then (kafka, queue) else
    LastWords(Next(s, actions[0]), actions[1..],
              Latest(KafkaWord(s, actions[0]), kafka), Latest(QueueWord(s, actions[0]), queue))
  }

  lemma NextKafkaWord(s: State, a: Action)
    requires Enabled(s, a)
    ensures Next(s, a).gate.kafkaOK == Latest(KafkaWord(s, a), s.gate.kafkaOK)
  {
  }

  lemma NextQueueWord(s: State, a: Action)
    requires Enabled(s, a)
    ensures Next(s, a).gate.queueOK == Latest(QueueWord(s, a), s.gate.queueOK)
  {
  }

  lemma {:induction false} ExecWords(s: State, actions: seq<Action>)
    requires CanRun(s, actions)
    ensures var t := Exec(s, actions);
      (t.gate.kafkaOK, t.gate.queueOK) == LastWords(s, actions, s.gate.kafkaOK, s.gate.queueOK)
    decreases |actions|
  {
    if actions == [] {
    } else {
      NextKafkaWord(s, actions[0]);
      NextQueueWord(s, actions[0]);
      ExecWords(Next(s, actions[0]), actions[1..]);
    }
  }

  /** In every run the gate's two health flags are the last words about Kafka and the disk queue; a
      recorder that has just started takes Kafka for down and the queue for up. */
  lemma HealthIsLastWord(wal: seq<Id>, actions: seq<Action>)
    requires CanRun(Start(wal), actions)
    ensures var s := Exec(Start(wal), actions);
      (s.gate.kafkaOK, s.gate.queueOK) == LastWords(Start(wal), actions, false, true)
  {
    ExecWords(Start(wal), actions);
  }
}
