/** What one call of the recorder does to the protocol's state when no other call runs beside it,
    as a path of protocol steps. */
module SerialRuns {
  import opened Gate
  import opened RecorderProtocol
  import opened Recovery

  /** The gate after one `Write`: `told` is Kafka's answer, `available` what the disk queue's answer
      says about its health. */
  function AfterWrite(g: Gate, compliant: bool, told: bool, available: bool): Gate {
    var reserved := g.Reserve(compliant);
    if g.Choose(compliant).QueueTarget? then reserved.FinishQueue(available)
    else if told then reserved.CompleteKafka()
    else reserved.FailKafka().FinishQueue(available)
  }

  /** The write went straight to Kafka and was confirmed. */
  predicate Direct(g: Gate, compliant: bool, told: bool) {
    g.Choose(compliant).KafkaTarget? && told
  }

  lemma Rephase(phase: map<Id, Phase>, w: Id, p: Phase, q: Phase)
    ensures phase[w := p][w := q] == phase[w := q]
  {
  }

  /** The append of a call that holds a queue reservation. */
  lemma AppendRun(s: State, t0: State, w: Id, stored: bool, available: bool) returns (t: State)
    requires Leads(s, t0) && Inv(t0) && w in t0.phase && t0.phase[w].QueueAdmitted? && (stored ==> available)
    ensures Leads(s, t) && Inv(t)
    ensures t == t0.(gate := t0.gate.FinishQueue(available), phase := t0.phase[w := Returned(stored)],
                     wal := if stored then t0.wal + [w] else t0.wal,
                     accepted := if stored then t0.accepted + {w} else t0.accepted)
  {
    t := Step(s, t0, Append(w, stored, available));
    t := Step(s, t, SettleQueue(w));
    Rephase(t0.phase, w, QueueAnswered(stored, available), Returned(stored));
  }

  /** The direct write of a call that Kafka is asked about. */
  lemma PublishRun(s: State, t0: State, w: Id, told: bool) returns (t: State)
    requires Leads(s, t0) && Inv(t0) && w in t0.phase && t0.phase[w].KafkaAdmitted?
    ensures Leads(s, t) && Inv(t)
    ensures t.gate == (if told then t0.gate.CompleteKafka() else t0.gate.FailKafka())
    ensures t.phase == t0.phase[w := if told then Returned(true) else QueueAdmitted]
    ensures t.wal == t0.wal && t.before == t0.before && t.replay == t0.replay
    ensures t.acked == (if told then t0.acked + {w} else t0.acked)
    ensures t.accepted == (if told then t0.accepted + {w} else t0.accepted)
  {
    t := Step(s, t0, CallKafka(w));
    Rephase(t0.phase, w, KafkaCalled, KafkaAnswered(told));
    t := Step(s, t, AnswerKafka(w, told));
    Rephase(t0.phase, w, KafkaAnswered(told), if told then Returned(true) else QueueAdmitted);
    t := Step(s, t, SettleKafka(w));
  }

  function Admitted(target: Target): Phase {
    if target.KafkaTarget? then KafkaAdmitted else QueueAdmitted
  }

  lemma AdmitRun(s: State, w: Id, compliant: bool) returns (t: State)
    requires Inv(s) && w !in s.before
    ensures Leads(s, t) && Inv(t)
    ensures t == s.(gate := s.gate.Reserve(compliant), before := s.before[w := s.accepted],
                    phase := s.phase[w := Admitted(s.gate.Choose(compliant))])
  {
    Stay(s);
    t := Step(s, s, Begin(w, compliant));
    t := Step(s, t, Reserve(w));
    Rephase(s.phase, w, Sampled(compliant), t.phase[w]);
  }

  /** A `Write` that runs by itself. */
  lemma WriteRun(s: State, w: Id, compliant: bool, told: bool, stored: bool, available: bool) returns (t: State)
    requires Inv(s) && Quiet(s) && w !in s.before && (stored ==> available)
    ensures Leads(s, t) && Inv(t) && Quiet(t)
    ensures t.gate == AfterWrite(s.gate, compliant, told, available)
    ensures t.before == s.before[w := s.accepted]
    ensures Direct(s.gate, compliant, told) ==>
      t.wal == s.wal && t.acked == s.acked + {w} && t.accepted == s.accepted + {w}
    ensures !Direct(s.gate, compliant, told) ==>
      && t.wal == (if stored then s.wal + [w] else s.wal) && t.acked == s.acked
      && t.accepted == if stored then s.accepted + {w} else s.accepted
  {
    t := AdmitRun(s, w, compliant);
    if s.gate.Choose(compliant).KafkaTarget? {
      t := PublishRun(s, t, w, told);
    }
    if !Direct(s.gate, compliant, told) {
      t := AppendRun(s, t, w, stored, available);
    }
    QuietAgain(s, t);
  }

  /** When the counters are back at what they were over a quiet state, nothing is in flight. */
  lemma QuietAgain(s: State, t: State)
    requires Counted(s) && Quiet(s) && Counted(t) && t.replay.Idle?
    requires t.gate.kafkaWrites == s.gate.kafkaWrites && t.gate.queueWrites == s.gate.queueWrites
    ensures Quiet(t)
  {
  }

  /** The gate after a batch was refused or published, and committed or not. */
  function AfterReplay(g: Gate, ok: bool, permanent: bool, committed: bool): Gate {
    if ok then g.(kafkaOK := true, queueOK := committed) else g.ReplayFailed(permanent)
  }

  lemma FetchRun(s: State, count: nat, ok: bool, permanent: bool) returns (t: State)
    requires Inv(s) && Quiet(s) && 1 <= count <= |s.wal|
    ensures Leads(s, t) && Inv(t) && OnlyReplay(s, t) && t.gate == s.gate && t.wal == s.wal && t.before == s.before
    ensures t.replay == if ok then Confirmed(s.wal[..count]) else Refused(s.wal[..count], permanent)
    ensures t.acked == if ok then s.acked + Elements(s.wal[..count]) else s.acked
  {
    Stay(s);
    t := Step(s, s, Fetch(count));
    t := Step(s, t, CallReplay);
    t := Step(s, t, AnswerReplay(ok, permanent));
  }

  lemma CommitRun(s: State, t0: State, committed: bool) returns (t: State)
    requires Leads(s, t0) && Inv(t0) && t0.replay.Confirmed? && |t0.replay.batch| <= |t0.wal|
    ensures Leads(s, t) && Inv(t)
    ensures t == t0.(gate := t0.gate.(kafkaOK := true, queueOK := committed), replay := Idle,
                     wal := if committed then t0.wal[|t0.replay.batch|..] else t0.wal)
  {
    t := Step(s, t0, AcknowledgeReplay);
    t := Step(s, t, Commit(committed));
    t := Step(s, t, SettleCommit);
  }

  /** A replay of `count` batches that runs by itself, up to the attempt to resume. */
  lemma ReplayRun(s: State, count: nat, ok: bool, permanent: bool, committed: bool) returns (t: State)
    requires Inv(s) && Quiet(s) && 1 <= count <= |s.wal|
    ensures Leads(s, t) && Inv(t) && Quiet(t)
    ensures t.gate == AfterReplay(s.gate, ok, permanent, committed)
    ensures t.wal == if ok && committed then s.wal[count..] else s.wal
    ensures t.acked == if ok then s.acked + Elements(s.wal[..count]) else s.acked
    ensures t.accepted == s.accepted && t.before == s.before
  {
    t := FetchRun(s, count, ok, permanent);
    if ok {
      t := CommitRun(s, t, committed);
    } else {
      t := Step(s, t, SettleRefused);
    }
  }

  /** The steps that only touch the gate, taken while the replayer is idle. */
  lemma GateRun(s: State, a: Action) returns (t: State)
    requires Inv(s) && Quiet(s) && (a.StartSpooling? || a.MarkQueue? || a.Resume?)
    ensures Leads(s, t) && Inv(t) && Quiet(t) && t == s.(gate := t.gate)
    ensures t.gate == match a
      case StartSpooling => s.gate.(spooling := true)
      case MarkQueue(ok) => s.gate.(queueOK := ok)
      case _ => s.gate.Resume(a.compliant, s.wal == [])
  {
    Stay(s);
    t := Step(s, s, a);
  }
}
