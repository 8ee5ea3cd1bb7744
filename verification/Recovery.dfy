/** Recovery of the request recorder: from which states a healthy Kafka and disk bring it back to
    direct writes over an empty queue without a restart. */
module Recovery {
  import opened Gate
  import opened RecorderProtocol

  /** `t` can be reached from `s` without a crash. */
  ghost predicate Leads(s: State, t: State) {
    exists actions: seq<Action> :: IsPath(s, actions, t)
  }

  ghost predicate IsPath(s: State, actions: seq<Action>, t: State) {
    CanRun(s, actions) && Exec(s, actions) == t && forall a <- actions :: !a.Crash?
  }

  /** Nothing is in flight and the replayer is idle. */
  predicate Quiet(s: State) {
    KafkaFlights(s.phase) == {} && QueueFlights(s.phase) == {} && s.replay.Idle?
  }

  /** Direct writes are open over an empty queue, and Kafka has confirmed everything accepted. */
  predicate Recovered(s: State) {
    Quiet(s) && !s.gate.spooling && s.wal == [] && s.accepted <= s.acked
  }

  /** The replay has met an error that Kafka calls permanent. */
  predicate Doomed(s: State) {
    s.gate.replayPaused || (s.replay.Refused? && s.replay.permanent)
  }

  // ---- Paths -------------------------------------------------------------------------------

  lemma Stay(s: State)
    ensures Leads(s, s)
  {
    assert IsPath(s, [], s);
  }

  lemma {:induction false} RunConcat(s: State, a: seq<Action>, b: seq<Action>)
    requires CanRun(s, a) && CanRun(Exec(s, a), b)
    ensures CanRun(s, a + b) && Exec(s, a + b) == Exec(Exec(s, a), b)
    decreases |a|
  {
    if a == [] {
      assert a + b == b;
    } else {
      RunConcat(Next(s, a[0]), a[1..], b);
      assert (a + b)[0] == a[0] && (a + b)[1..] == a[1..] + b;
    }
  }

  lemma Join(s: State, t: State, u: State)
    requires Leads(s, t) && Leads(t, u)
    ensures Leads(s, u)
  {
    var a :| IsPath(s, a, t);
    var b :| IsPath(t, b, u);
    RunConcat(s, a, b);
    assert IsPath(s, a + b, u);
  }

  /** One more step at the end of a path keeps the invariant. */
  lemma Step(s: State, t: State, a: Action) returns (u: State)
    requires Leads(s, t) && Inv(t) && Enabled(t, a) && !a.Crash?
    ensures u == Next(t, a) && Leads(s, u) && Inv(u)
  {
    u := Next(t, a);
    NextInv(t, a);
    assert IsPath(t, [a], u) by { assert CanRun(u, []); assert [a][1..] == []; }
    Join(s, t, u);
  }

  // ---- Settling what is in flight ----------------------------------------------------------

  /** What a call in flight does next when Kafka and the disk are healthy. */
  function Advance(w: Id, p: Phase): Action
    requires p.InKafka() || p.InQueue()
  {
    match p
    case KafkaAdmitted => CallKafka(w)
    case KafkaCalled => AnswerKafka(w, true)
    case KafkaAnswered(_) => SettleKafka(w)
    case QueueAdmitted => Append(w, true, true)
    case QueueAnswered(_, _) => SettleQueue(w)
    case _ => assert false; Resume(true)
  }

  /** How many steps a call is from its end at most. */
  function Left(p: Phase): nat {
    match p
    case KafkaAdmitted => 5
    case KafkaCalled => 4
    case KafkaAnswered(_) => 3
    case QueueAdmitted => 2
    case QueueAnswered(_, _) => 1
    case _ => 0
  }

  /** `t` differs from `s` only in how far calls in flight have come. */
  predicate OnlyCalls(s: State, t: State) {
    t.replay == s.replay && t.gate.replayPaused == s.gate.replayPaused && s.accepted <= t.accepted
  }

  lemma AdvanceIsProgress(s: State, w: Id)
    requires w in s.phase && (s.phase[w].InKafka() || s.phase[w].InQueue())
    ensures var a := Advance(w, s.phase[w]);
      && Enabled(s, a) && !a.Crash?
      && var t := Next(s, a);
         OnlyCalls(s, t) && w in t.phase && t.phase == s.phase[w := t.phase[w]] && Left(t.phase[w]) < Left(s.phase[w])
  {
  }

  lemma AdvanceCall(s: State, w: Id) returns (t: State)
    requires Inv(s) && w in s.phase && Left(s.phase[w]) > 0
    ensures Leads(s, t) && Inv(t) && OnlyCalls(s, t)
    ensures w in t.phase && t.phase == s.phase[w := t.phase[w]] && Left(t.phase[w]) < Left(s.phase[w])
  {
    Stay(s);
    AdvanceIsProgress(s, w);
    t := Step(s, s, Advance(w, s.phase[w]));
  }

  /** One call can be brought to its end. */
  lemma {:induction false} SettleCall(s: State, w: Id) returns (t: State)
    requires Inv(s) && w in s.phase
    ensures Leads(s, t) && Inv(t) && OnlyCalls(s, t)
    ensures w in t.phase && t.phase == s.phase[w := t.phase[w]] && Left(t.phase[w]) == 0
    decreases Left(s.phase[w])
  {
    if Left(s.phase[w]) == 0 {
      Stay(s);
      t := s;
    } else {
      var u := AdvanceCall(s, w);
      t := SettleCall(u, w);
      Join(s, u, t);
    }
  }

  /** The calls in flight. */
  function InFlight(phase: map<Id, Phase>): set<Id> {
    set w | w in phase && Left(phase[w]) > 0
  }

  lemma FewerInFlight(phase: map<Id, Phase>, w: Id, p: Phase)
    requires w in InFlight(phase) && Left(p) == 0
    ensures InFlight(phase[w := p]) < InFlight(phase)
  {
    assert w !in InFlight(phase[w := p]);
  }

  /** All calls in flight can be brought to their end. */
  lemma {:induction false} SettleCalls(s: State) returns (t: State)
    requires Inv(s)
    ensures Leads(s, t) && Inv(t) && OnlyCalls(s, t) && InFlight(t.phase) == {}
    decreases InFlight(s.phase)
  {
    if InFlight(s.phase) == {} {
      Stay(s);
      t := s;
    } else {
      var w :| w in InFlight(s.phase);
      var u := SettleCall(s, w);
      FewerInFlight(s.phase, w, u.phase[w]);
      t := SettleCalls(u);
      Join(s, u, t);
    }
  }

  /** What the replayer does next when Kafka and the disk are healthy. */
  function AdvanceReplay(r: Replay): Action
    requires !r.Idle?
  {
    match r
    case Fetched(_) => CallReplay
    case Called(_) => AnswerReplay(true, false)
    case Confirmed(_) => AcknowledgeReplay
    case Acknowledged(_) => Commit(true)
    case Removed(_) => SettleCommit
    case Refused(_, _) => SettleRefused
  }

  function LeftOfReplay(r: Replay): nat {
    match r
    case Idle => 0
    case Removed(_) | Refused(_, _) => 1
    case Acknowledged(_) => 2
    case Confirmed(_) => 3
    case Called(_) => 4
    case Fetched(_) => 5
  }

  /** A replay under way can be brought to its end. */
  lemma {:induction false} SettleReplay(s: State) returns (t: State)
    requires Inv(s) && !Doomed(s)
    ensures Leads(s, t) && Inv(t) && !Doomed(t) && t.replay.Idle? && t.phase == s.phase && t.accepted == s.accepted
    decreases LeftOfReplay(s.replay)
  {
    Stay(s);
    if s.replay.Idle? {
      t := s;
    } else {
      var u := Step(s, s, AdvanceReplay(s.replay));
      t := SettleReplay(u);
      Join(s, u, t);
    }
  }

  // ---- The replay loop ---------------------------------------------------------------------

  /** One successful round of the replay loop. */
  function Round(count: nat): seq<Action> {
    [Fetch(count), CallReplay, AnswerReplay(true, false), AcknowledgeReplay, Commit(true), SettleCommit]
  }

  /** The steps of the replay loop when everything it calls succeeds. */
  function Drain(limit: nat, queued: nat): seq<Action>
    requires limit > 0
  {
    if queued == 0 then [Resume(true)] else
    var count := if limit < queued then limit else queued;
    Round(count) + Drain(limit, queued - count)
  }

  /** The `k`-th of some steps is taken. */
  lemma Take(s: State, t: State, steps: seq<Action>, k: nat) returns (u: State)
    requires k < |steps| && IsPath(s, steps[..k], t)
    requires Inv(t) && Enabled(t, steps[k]) && !steps[k].Crash?
    ensures u == Next(t, steps[k]) && IsPath(s, steps[..k + 1], u) && Inv(u)
  {
    var a := steps[k];
    u := Next(t, a);
    NextInv(t, a);
    assert CanRun(u, []) && [a][1..] == [];
    RunConcat(s, steps[..k], [a]);
    assert steps[..k + 1] == steps[..k] + [a];
  }

  /** `t` differs from `s` only in the replay and in what Kafka has been asked and has confirmed. */
  predicate OnlyReplay(s: State, t: State) {
    t.phase == s.phase && t.accepted == s.accepted && t.gate.replayPaused == s.gate.replayPaused
  }

  /** The first half of a round: Kafka confirms the first `count` batches of the queue. */
  lemma RoundPublishes(s: State, count: nat) returns (t: State)
    requires Inv(s) && s.replay.Idle? && 1 <= count <= |s.wal|
    ensures IsPath(s, Round(count)[..3], t) && Inv(t) && OnlyReplay(s, t)
    ensures t.replay == Confirmed(s.wal[..count]) && t.wal == s.wal
  {
    var steps := Round(count);
    assert IsPath(s, steps[..0], s);
    t := Take(s, s, steps, 0);
    t := Take(s, t, steps, 1);
    t := Take(s, t, steps, 2);
  }

  lemma CommitSteps(s: State)
    requires s.replay.Confirmed? && |s.replay.batch| <= |s.wal|
    ensures var t1 := Next(s, AcknowledgeReplay);
      && Enabled(t1, Commit(true))
      && var t2 := Next(t1, Commit(true));
         && Enabled(t2, SettleCommit)
         && var t3 := Next(t2, SettleCommit);
            OnlyReplay(s, t3) && t3.replay.Idle? && t3.wal == s.wal[|s.replay.batch|..]
  {
  }

  /** The second half: they leave the queue. */
  lemma RoundCommits(s: State, t0: State, count: nat) returns (t: State)
    requires IsPath(s, Round(count)[..3], t0) && Inv(t0)
    requires t0.replay.Confirmed? && |t0.replay.batch| == count <= |t0.wal|
    ensures IsPath(s, Round(count), t) && Inv(t) && OnlyReplay(t0, t)
    ensures t.replay.Idle? && t.wal == t0.wal[count..]
  {
    var steps := Round(count);
    CommitSteps(t0);
    t := Take(s, t0, steps, 3);
    t := Take(s, t, steps, 4);
    t := Take(s, t, steps, 5);
    assert steps[..6] == steps;
  }

  /** One successful round moves `count` batches from the queue to Kafka. */
  lemma RoundMoves(s: State, count: nat) returns (t: State)
    requires Inv(s) && s.replay.Idle? && 1 <= count <= |s.wal|
    ensures IsPath(s, Round(count), t) && Inv(t) && OnlyReplay(s, t)
    ensures t.replay.Idle? && t.wal == s.wal[count..]
  {
    var u := RoundPublishes(s, count);
    t := RoundCommits(s, u, count);
  }

  /** From a quiet state the loop empties the queue and reopens direct writes, whatever its batch
      size. */
  lemma {:induction false} DrainRecovers(s: State, limit: nat) returns (t: State)
    requires Inv(s) && limit > 0 && Quiet(s) && !s.gate.replayPaused
    ensures IsPath(s, Drain(limit, |s.wal|), t) && Recovered(t) && t.accepted == s.accepted
    decreases |s.wal|
  {
    if s.wal == [] {
      var steps := [Resume(true)];
      assert IsPath(s, steps[..0], s);
      t := Take(s, s, steps, 0);
      assert steps[..1] == steps;
    } else {
      var count := if limit < |s.wal| then limit else |s.wal|;
      var u := RoundMoves(s, count);
      t := DrainRecovers(u, limit);
      RunConcat(s, Round(count), Drain(limit, |u.wal|));
    }
  }

  // ---- Which states recover ----------------------------------------------------------------

  /** Without a restart, a doomed state leads to doomed states only. */
  lemma {:induction false} DoomStays(s: State, actions: seq<Action>)
    requires Doomed(s) && CanRun(s, actions) && forall a <- actions :: !a.Crash?
    ensures Doomed(Exec(s, actions))
    decreases |actions|
  {
    if actions == [] {
    } else {
      assert actions[0] in actions;
      DoomStays(Next(s, actions[0]), actions[1..]);
    }
  }

  /** Kafka tells the replayer that it will never take a batch. */
  predicate RefusesForever(a: Action) {
    a == AnswerReplay(false, true)
  }

  /** Since the last crash the replay has met a permanent error. */
  predicate MetPermanentError(actions: seq<Action>) {
    exists k :: 0 <= k < |actions| && RefusesForever(actions[k]) && NoCrash(actions[k + 1..])
  }

  predicate NoCrash(actions: seq<Action>) {
    forall a <- actions :: !a.Crash?
  }

  lemma MetCons(a: Action, rest: seq<Action>)
    ensures MetPermanentError([a] + rest) <==> MetPermanentError(rest) || (RefusesForever(a) && NoCrash(rest))
    ensures NoCrash([a] + rest) <==> !a.Crash? && NoCrash(rest)
  {
    var all := [a] + rest;
    if MetPermanentError(rest) {
      var k :| 0 <= k < |rest| && RefusesForever(rest[k]) && NoCrash(rest[k + 1..]);
      assert all[k + 1] == rest[k] && all[k + 1 + 1..] == rest[k + 1..];
    }
    assert all[0] == a && all[0 + 1..] == rest;
    forall k | 0 < k < |all| ensures all[k] == rest[k - 1] && all[k + 1..] == rest[k - 1 + 1..] {}
  }

  /** A state is doomed by what the steps since the last crash were told, and by nothing else. */
  lemma {:induction false} DoomIsTold(s: State, actions: seq<Action>)
    requires CanRun(s, actions)
    ensures Doomed(Exec(s, actions)) <==> MetPermanentError(actions) || (Doomed(s) && NoCrash(actions))
    decreases |actions|
  {
    if actions == [] {
    } else {
      DoomIsTold(Next(s, actions[0]), actions[1..]);
      MetCons(actions[0], actions[1..]);
      assert actions == [actions[0]] + actions[1..];
    }
  }

  /** Calls and replay settle, and then the loop drains the queue with any batch size. */
  lemma SettleAndDrain(s: State, limit: nat) returns (quiet: State, t: State)
    requires Inv(s) && !Doomed(s) && limit > 0
    ensures Leads(s, quiet) && Quiet(quiet)
    ensures IsPath(quiet, Drain(limit, |quiet.wal|), t) && Leads(s, t) && Recovered(t) && s.accepted <= t.accepted
  {
    var u := SettleCalls(s);
    quiet := SettleReplay(u);
    Join(s, u, quiet);
    assert KafkaFlights(quiet.phase) <= InFlight(quiet.phase) && QueueFlights(quiet.phase) <= InFlight(quiet.phase);
    t := DrainRecovers(quiet, limit);
    Join(s, quiet, t);
  }

  /** The barrier is no deadlock: without a restart, and whatever is in flight, a reached state has
      a continuation in which all calls and the replay end, the queue is emptied, everything
      accepted is confirmed and direct writes are open again, if and only if the replay has met no
      permanent error since the process started. */
  lemma RecoversUnlessPaused(wal: seq<Id>, actions: seq<Action>)
    requires CanRun(Start(wal), actions)
    ensures var s := Exec(Start(wal), actions);
      (exists t :: Leads(s, t) && Recovered(t) && s.accepted <= t.acked) <==> !MetPermanentError(actions)
  {
    RunInv(wal, actions);
    DoomIsTold(Start(wal), actions);
    var s := Exec(Start(wal), actions);
    if Doomed(s) {
      forall t | Leads(s, t) ensures !Recovered(t) {
        var path :| IsPath(s, path, t);
        DoomStays(s, path);
        ExecInv(s, path);
      }
    } else {
      var _, t := SettleAndDrain(s, 1);
    }
  }

  /** With any batch size, the replay loop itself is that continuation once calls have ended. */
  lemma ReplayRecovers(wal: seq<Id>, actions: seq<Action>, limit: nat)
    requires CanRun(Start(wal), actions) && limit > 0
    requires var s := Exec(Start(wal), actions); Quiet(s) && !s.gate.replayPaused
    ensures var s := Exec(Start(wal), actions);
      && CanRun(s, Drain(limit, |s.wal|))
      && var t := Exec(s, Drain(limit, |s.wal|)); Recovered(t) && t.accepted == s.accepted
  {
    RunInv(wal, actions);
    var t := DrainRecovers(Exec(Start(wal), actions), limit);
  }
}
