/**
  The attempt counters: over a process without restarts they grow by exactly the
  attempts the sink admits, and the retry counter by those that were not the first.
*/
module ProtocolCounters {
  import opened Domain
  import opened Protocol
  import Ledger
  import Recorder

  /** How many attempts of the log were admitted, and how many of those were not the first of their delivery. */
  function AdmittedIn(log: seq<Attempt>): nat {
    if log == [] then 0
    else AdmittedIn(log[..|log| - 1]) + if log[|log| - 1].answer == Accepted then 1 else 0
  }

  function RetriedIn(log: seq<Attempt>): nat {
    if log == [] then 0
    else
      var last := log[|log| - 1];
      RetriedIn(log[..|log| - 1]) + if last.answer == Accepted && last.number > 1 then 1 else 0
  }

  /** The counters moved with the log. */
  ghost predicate InStep(w: World, w': World) {
    && w'.recorder.attempts - w.recorder.attempts == AdmittedIn(w'.log) - AdmittedIn(w.log)
    && w'.recorder.retries - w.recorder.retries == RetriedIn(w'.log) - RetriedIn(w.log)
  }

  predicate SameTally(r: Recorder.State, r': Recorder.State) {
    r'.attempts == r.attempts && r'.retries == r.retries
  }

  lemma TallyStep(w: World, w': World)
    requires w'.log == w.log && SameTally(w.recorder, w'.recorder)
    ensures InStep(w, w')
  {}

  lemma MovesTally(clock: nat -> int, r: Recorder.State, k: Key, from: DeliveryState, to: DeliveryState, at: int)
    ensures SameTally(r, Recorder.Transition(clock, r, k, from, to))
    ensures SameTally(r, Recorder.Finished(clock, r, k, from, to)) && SameTally(r, Recorder.Created(r, k, at))
  {}

  lemma TriedInStep(env: Env, w: World, session: Session, i: nat, now: int)
    requires i < |w.rows| && w.rows[i].messageId in w.ledger.messages
    ensures InStep(w, Tried(env, w, session, i, now))
  {
    hide ClaimedRow;
    hide Recorder.Transition;
    hide Recorder.Finished;
    var w', d := Tried(env, w, session, i, now), w.rows[i];
    assert w'.log[..|w.log|] == w.log;
    var r := Recorder.Attempted(w.recorder, d.attempts + 1 > 1);
    MovesTally(env.metricsClock, r, d.Id(), d.state, InFlight, 0);
    var r' := Recorder.Transition(env.metricsClock, r, d.Id(), d.state, InFlight);
    MovesTally(env.metricsClock, r', d.Id(), InFlight, Acknowledged, 0);
  }

  lemma {:induction false} ConversationInStep(env: Env, w: World, session: Session, conv: nat, now: int)
    requires env.cfg.leaseMs > 0
    ensures InStep(w, ClaimConversation(env, w, session, conv, now).0)
    decreases |ClaimableIn(w.rows, session.user, conv, now)|
  {
    hide Tried;
    var h := Head(w, session.user, conv);
    if h >= 0 && Claimable(w.rows[h], now) && w.rows[h].messageId in w.ledger.messages {
      TriedInStep(env, w, session, h, now);
      if env.answers(|w.log|) == Accepted {
        TriedShrinks(env, w, session, h, now, conv);
        ConversationInStep(env, Tried(env, w, session, h, now), session, conv, now);
      }
    }
  }

  lemma {:induction false} ConversationsInStep(env: Env, w: World, session: Session, convs: seq<nat>, now: int)
    requires env.cfg.leaseMs > 0
    ensures InStep(w, ClaimConversations(env, w, session, convs, now))
    decreases |convs|
  {
    hide ClaimConversation;
    if convs != [] {
      ConversationInStep(env, w, session, convs[0], now);
      ConversationsInStep(env, ClaimConversation(env, w, session, convs[0], now).0, session, convs[1..], now);
    }
  }

  lemma ClaimInStep(env: Env, w: World, session: Session)
    requires env.cfg.leaseMs > 0
    ensures InStep(w, ClaimFor(env, w, session))
  {
    hide ClaimConversations;
    ConversationsInStep(env, w.(clockReads := w.clockReads + 1), session,
                        OpenConversations(w.rows, session.user, |w.rows|), env.clock(w.clockReads));
  }

  lemma {:induction false} OnAcceptedInStep(env: Env, w: World, recipients: seq<nat>)
    requires env.cfg.leaseMs > 0
    ensures InStep(w, OnAccepted(env, w, recipients))
    decreases |recipients|
  {
    hide ClaimFor;
    if recipients != [] {
      var u := recipients[0];
      var w1 := if u in w.coord.active then ClaimFor(env, w, w.coord.active[u]) else w;
      if u in w.coord.active {
        ClaimInStep(env, w, w.coord.active[u]);
      }
      OnAcceptedInStep(env, w1, recipients[1..]);
    }
  }

  lemma {:induction false} ClaimEachInStep(env: Env, w: World, sessions: seq<Session>)
    requires env.cfg.leaseMs > 0
    ensures InStep(w, ClaimEach(env, w, sessions))
    decreases |sessions|
  {
    hide ClaimFor;
    if sessions != [] {
      ClaimInStep(env, w, sessions[0]);
      ClaimEachInStep(env, ClaimFor(env, w, sessions[0]), sessions[1..]);
    }
  }

  // ---- What leaves the counters alone ----

  lemma ReleaseTally(env: Env, w: World, i: nat, d: Delivery)
    requires i < |w.rows|
    ensures var w' := ReleaseRow(env, w, i, d); w'.log == w.log && SameTally(w.recorder, w'.recorder)
  {
    MovesTally(env.metricsClock, w.recorder, d.Id(), InFlight, Pending, 0);
  }

  lemma {:induction false} FenceTally(env: Env, w: World, session: Session, i: nat)
    requires i <= |w.rows|
    ensures var w' := FenceFrom(env, w, session, i); w'.log == w.log && SameTally(w.recorder, w'.recorder)
    decreases |w.rows| - i
  {
    hide ReleaseRow;
    if i < |w.rows| {
      var d := Filled(w.ledger.messages, w.rows[i]);
      ReleaseTally(env, w, i, d);
      ReleaseLength(env, w, i, d);
      FenceTally(env, if Stale(w, w.rows[i], session) then ReleaseRow(env, w, i, d) else w, session, i + 1);
    }
  }

  lemma {:induction false} CloseTally(env: Env, w: World, session: Session, i: nat)
    requires i <= |w.rows|
    ensures var w' := CloseFrom(env, w, session, i); w'.log == w.log && SameTally(w.recorder, w'.recorder)
    decreases |w.rows| - i
  {
    hide ReleaseRow;
    if i < |w.rows| {
      var d := Filled(w.ledger.messages, w.rows[i]);
      ReleaseTally(env, w, i, d);
      ReleaseLength(env, w, i, d);
      CloseTally(env, if HeldBy(w.rows[i], session) then ReleaseRow(env, w, i, d) else w, session, i + 1);
    }
  }

  lemma ReleaseLength(env: Env, w: World, i: nat, d: Delivery)
    requires i < |w.rows|
    ensures |ReleaseRow(env, w, i, d).rows| == |w.rows|
  {}

  lemma {:induction false} RollBackTally(env: Env, w: World, due: seq<nat>)
    requires forall k :: 0 <= k < |due| ==> due[k] < |w.rows|
    ensures var w' := RollBack(env, w, due); w'.log == w.log && SameTally(w.recorder, w'.recorder)
    decreases |due|
  {
    hide ReleaseRow;
    if due != [] {
      var i := due[0];
      ReleaseTally(env, w, i, w.rows[i]);
      ReleaseLength(env, w, i, w.rows[i]);
      RollBackTally(env, if Retriable(w.coord, w.rows[i]) then ReleaseRow(env, w, i, w.rows[i]) else w, due[1..]);
    }
  }

  lemma {:induction false} ExpiriesTally(env: Env, r: Recorder.State, list: seq<Expiry>)
    ensures SameTally(r, RecordExpiries(env, r, list))
    decreases |list|
  {
    hide Recorder.Finished;
    if list != [] {
      MovesTally(env.metricsClock, r, list[0].key, list[0].from, Expired, 0);
      ExpiriesTally(env, Recorder.Finished(env.metricsClock, r, list[0].key, list[0].from, Expired), list[1..]);
    }
  }

  lemma {:induction false} CreatedTally(clock: nat -> int, r: Recorder.State, m: Message, recipients: seq<nat>)
    ensures SameTally(r, RecordCreated(r, m, recipients))
    decreases |recipients|
  {
    hide Recorder.Created;
    if recipients != [] {
      var k := Key(m.id, recipients[0]);
      MovesTally(clock, r, k, Pending, Pending, m.acceptedAt);
      CreatedTally(clock, Recorder.Created(r, k, m.acceptedAt), m, recipients[1..]);
    }
  }

  // ---- Operations ----

  lemma AcceptInStep(env: Env, w: World, sender: Session, cmd: Command)
    requires env.cfg.leaseMs > 0
    ensures InStep(w, Accept(env, w, sender, cmd))
  {
    hide OnAccepted;
    hide RecordCreated;
    hide InsertRows;
    var k := Ledger.AcceptKey(sender.user, cmd.clientId);
    if k in w.ledger.accepted {
      OnAcceptedInStep(env, w, RecipientsFor(w.ledger.accepted[k].command));
    } else {
      var w1 := Enrol(env, w, sender.user, cmd);
      var m := Ledger.AcceptedMessage(w.ledger, sender.user, cmd, env.clock(w.clockReads));
      CreatedTally(env.metricsClock, w.recorder, m, RecipientsFor(cmd));
      TallyStep(w, w1);
      OnAcceptedInStep(env, w1, RecipientsFor(cmd));
    }
  }

  lemma AcknowledgeInStep(env: Env, w: World, acker: Session, id: nat)
    requires env.cfg.leaseMs > 0
    ensures InStep(w, Acknowledge(env, w, acker, id))
  {
    hide ClaimFor;
    hide Recorder.Finished;
    hide IndexOf;
    hide Known;
    if AckResultOf(w, acker, id) == AckAcknowledged {
      var i := IndexOf(w.rows, Key(id, acker.user));
      var w1 := ClaimFor(env, AckRow(env, w, i), acker);
      TallyStep(w, AckRow(env, w, i));
      ClaimInStep(env, AckRow(env, w, i), acker);
      MovesTally(env.metricsClock, w1.recorder, Key(id, acker.user), w.rows[i].state, Acknowledged, 0);
    }
  }

  lemma AvailableInStep(env: Env, w: World, session: Session)
    requires env.cfg.leaseMs > 0
    ensures InStep(w, SessionAvailable(env, w, session))
  {
    hide ClaimFor;
    hide FenceFrom;
    if !Outdated(w.coord, session) {
      var w1 := w.(coord := w.coord.(observed := w.coord.observed[session.user := session.generation]));
      FenceTally(env, w1, session, 0);
      var w2 := FenceFrom(env, w1, session, 0);
      ClaimInStep(env, w2.(coord := w2.coord.(active := w2.coord.active[session.user := session])), session);
    }
  }

  lemma ClosedInStep(env: Env, w: World, session: Session)
    requires env.cfg.leaseMs > 0
    ensures InStep(w, SessionClosed(env, w, session))
  {
    hide ClaimFor;
    hide CloseFrom;
    var mine := session.user in w.coord.active && w.coord.active[session.user] == session;
    var w1 := w.(coord := w.coord.(paused := w.coord.paused - {session},
                                   active := if mine then w.coord.active - {session.user} else w.coord.active));
    CloseTally(env, w1, session, 0);
    if session.user in w1.coord.active {
      ClaimInStep(env, CloseFrom(env, w1, session, 0), w1.coord.active[session.user]);
    }
  }

  lemma TickInStep(env: Env, w: World)
    requires env.cfg.leaseMs > 0
    ensures InStep(w, Tick(env, w))
  {
    hide ClaimEach;
    hide DueFrom;
    hide RecordExpiries;
    hide ExpireFrom;
    hide CleanFrom;
    hide Retriers;
    hide RollBack;
    var now := env.clock(w.clockReads);
    var w0 := w.(clockReads := w.clockReads + 1);
    ExpiriesTally(env, w.recorder, ExpireFrom(w0.rows, 0, now, env.cfg.retryBatchLimit).1);
    var w2 := Cleanup(env, ExpireOverdue(env, w0, now), now);
    TallyStep(w, w2);
    var w3 := w2.(coord := w2.coord.(tickNexts := []));
    var due := DueFrom(w2.rows, 0, now, env.cfg.retryBatchLimit);
    DueInRange(w2.rows, 0, now, env.cfg.retryBatchLimit);
    RollBackTally(env, w3, due);
    ClaimEachInStep(env, RollBack(env, w3, due), Retriers(w3.coord, RowsAt(w2.rows, due)));
  }

  lemma StepInStep(env: Env, w: World, op: Op)
    requires env.cfg.leaseMs > 0 && !op.OpRestart?
    ensures InStep(w, Step(env, w, op))
  {
    hide ClaimFor;
    hide OnAccepted;
    hide Tick;
    hide Accept;
    hide Acknowledge;
    hide SessionAvailable;
    hide SessionClosed;
    match op
    case OpAccept(sender, cmd) => AcceptInStep(env, w, sender, cmd);
    case OpAcknowledge(acker, id) => AcknowledgeInStep(env, w, acker, id);
    case OpAvailable(session) =>
      AvailableInStep(env, w, session);
      TickInStep(env, SessionAvailable(env, w, session));
    case OpClosed(session) => ClosedInStep(env, w, session);
    case OpResume(session) =>
      ClaimInStep(env, w.(coord := w.coord.(paused := w.coord.paused - {session})), session);
    case OpWakeup(recipients) => OnAcceptedInStep(env, w, recipients);
    case OpTick => TickInStep(env, w);
  }

  /** Over every run without a restart, from any state, the counters move with the attempts the sink admits. */
  lemma {:induction false} AttemptsAreCounted(env: Env, w: World, ops: seq<Op>)
    requires env.cfg.leaseMs > 0 && forall n :: 0 <= n < |ops| ==> !ops[n].OpRestart?
    ensures var w' := Run(env, w, ops);
      && w'.recorder.attempts - w.recorder.attempts == AdmittedIn(w'.log) - AdmittedIn(w.log)
      && w'.recorder.retries - w.recorder.retries == RetriedIn(w'.log) - RetriedIn(w.log)
  {
    hide Step;
    if ops != [] {
      AttemptsAreCounted(env, w, ops[..|ops| - 1]);
      StepInStep(env, Run(env, w, ops[..|ops| - 1]), ops[|ops| - 1]);
    }
  }
}
