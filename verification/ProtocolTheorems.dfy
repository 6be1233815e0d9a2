/**
  What the reliable-messaging core promises, over every run: any sequence of
  operations, sink answers and clock readings, with restarts between operations.
*/
module ProtocolTheorems {
  import opened Domain
  import opened Protocol
  import opened ProtocolSafety
  import opened ProtocolRuns
  import opened ProtocolAccept
  import opened ProtocolTiming
  import Ledger
  import Recorder

  lemma InitialInv(boot: nat)
    ensures Inv(Initial(boot))
  {
    hide Ledger.Exact;
    Ledger.EmptyExact();
  }

  lemma RestartInv(w: World, boot: nat)
    requires Inv(w)
    ensures var w' := w.(coord := Fresh(boot), recorder := Recorder.EMPTY, lastCleanup := 0); Inv(w') && Evolves(w, w')
  {
    var w' := w.(coord := Fresh(boot), recorder := Recorder.EMPTY, lastCleanup := 0);
    KeptEvolves(w, w');
  }

  /** The deliveries whose acknowledgement this operation may record. */
  function AckedBy(op: Op): set<Key> {
    if op.OpAcknowledge? then {Key(op.messageId, op.acker.user)} else {}
  }

  /** Every operation, and a restart at any point between operations, keeps the invariant. */
  lemma StepInv(env: Env, w: World, op: Op)
    requires env.cfg.leaseMs > 0 && Inv(w)
    ensures Inv(Step(env, w, op)) && Evolves(w, Step(env, w, op)) && Step(env, w, op).acks <= w.acks + AckedBy(op)
  {
    hide Deliveries;
    hide Ledger.Exact;
    hide Evolves;
    match op
    case OpAccept(sender, cmd) => AcceptInv(env, w, sender, cmd);
    case OpAcknowledge(acker, id) => AcknowledgeInv(env, w, acker, id);
    case OpAvailable(session) =>
      SessionAvailableInv(env, w, session);
      var w1 := SessionAvailable(env, w, session);
      TickInv(env, w1);
      InvOwed(Tick(env, w1));
      EvolvesTrans(w, w1, Tick(env, w1));
    case OpClosed(session) => SessionClosedInv(env, w, session);
    case OpResume(session) => ResumeInv(env, w, session);
    case OpWakeup(recipients) =>
      OnAcceptedInv(env, w, recipients);
      ClaimsEvolve(w, OnAccepted(env, w, recipients));
    case OpTick => TickInv(env, w);
    case OpRestart(boot) => RestartInv(w, boot);
  }

  lemma {:induction false} RunInv(env: Env, w: World, ops: seq<Op>)
    requires env.cfg.leaseMs > 0 && Inv(w)
    ensures Inv(Run(env, w, ops)) && Evolves(w, Run(env, w, ops))
  {
    hide Deliveries;
    hide Ledger.Exact;
    hide Evolves;
    hide Step;
    KeptEvolvesSelf(w);
    if ops != [] {
      var w1 := Run(env, w, ops[..|ops| - 1]);
      RunInv(env, w, ops[..|ops| - 1]);
      StepInv(env, w1, ops[|ops| - 1]);
      InvOwed(Step(env, w1, ops[|ops| - 1]));
      EvolvesTrans(w, w1, Step(env, w1, ops[|ops| - 1]));
    }
  }

  /** A state some process history can produce. */
  ghost predicate Reachable(env: Env, w: World) {
    env.cfg.leaseMs > 0 && exists boot, ops :: w == Run(env, Initial(boot), ops)
  }

  lemma ReachableInv(env: Env, w: World)
    requires Reachable(env, w)
    ensures Inv(w)
  {
    hide Deliveries;
    hide Ledger.Exact;
    var boot, ops :| w == Run(env, Initial(boot), ops);
    InitialInv(boot);
    RunInv(env, Initial(boot), ops);
  }

  // ---- Order ----

  /**
    For one recipient and conversation, attempts are never made out of order:
    once a later message has been attempted, no earlier one is ever attempted
    again, across acknowledgements, reconnects, expiry, retries and restarts.
  */
  lemma DeliveryOrder(env: Env, w: World, e: nat, f: nat)
    requires Reachable(env, w) && e < f < |w.log|
    requires w.log[e].recipient == w.log[f].recipient && w.log[e].conversation == w.log[f].conversation
    ensures w.log[e].sequence <= w.log[f].sequence
    ensures w.log[e].sequence == w.log[f].sequence <==> w.log[e].messageId == w.log[f].messageId
  {
    ReachableInv(env, w);
    assert SameLane(w.log[e], w.log[f]);
    LogSameMessage(w.log, w.ledger.messages, e, f);
  }

  /** Every attempt hands over its message unchanged, to one of the message's recipients. */
  lemma AttemptsAreFaithful(env: Env, w: World, e: nat)
    requires Reachable(env, w) && e < |w.log|
    ensures w.log[e].messageId in w.ledger.messages
    ensures var a, m := w.log[e], w.ledger.messages[w.log[e].messageId];
      && a.conversation == m.conversation && a.sequence == m.sequence
      && a.sender == m.sender && a.content == m.command.content
      && a.kind == m.command.kind && a.directRecipient == m.command.directRecipient && a.groupId == m.command.groupId
      && a.recipient in RecipientsFor(m.command)
  {
    hide Ledger.Exact;
    ReachableInv(env, w);
  }

  lemma LogSameMessage(log: seq<Attempt>, m: map<nat, Message>, e: nat, f: nat)
    requires LogFiled(log, m) && Ledger.Ascending(m) && e < |log| && f < |log|
    requires log[e].conversation == log[f].conversation
    ensures log[e].sequence == log[f].sequence <==> log[e].messageId == log[f].messageId
  {
    if log[e].messageId < log[f].messageId || log[f].messageId < log[e].messageId {
      assert log[e].sequence != log[f].sequence;
    }
  }

  /** At most one row per recipient and conversation is in flight, and it is the first open one. */
  lemma OneInFlight(env: Env, w: World, i: nat, j: nat)
    requires Reachable(env, w) && i < |w.rows| && j < |w.rows| && i != j
    requires w.rows[i].recipient == w.rows[j].recipient && w.rows[i].conversation == w.rows[j].conversation
    requires w.rows[i].state == InFlight && w.rows[j].Live()
    ensures w.rows[j].state == Pending && w.rows[i].messageId in w.ledger.messages
    ensures w.rows[j].messageId in w.ledger.messages
    ensures w.ledger.messages[w.rows[i].messageId].sequence < w.ledger.messages[w.rows[j].messageId].sequence
  {
    ReachableInv(env, w);
    assert Candidate(w.rows[j], w.rows[i].recipient, w.rows[i].conversation);
    assert Candidate(w.rows[i], w.rows[j].recipient, w.rows[j].conversation);
  }

  // ---- Fencing ----

  /** An active session is its user's newest, and holds all leases of the user under this boot id. */
  lemma ActiveSessionHoldsLeases(env: Env, w: World, user: nat)
    requires Reachable(env, w) && user in w.coord.active
    ensures var s := w.coord.active[user];
      && s.user == user && user in w.coord.observed && w.coord.observed[user] == s.generation
      && forall i :: 0 <= i < |w.rows| && w.rows[i].recipient == user && w.rows[i].state == InFlight ==>
           w.rows[i].leaseOwner == s && w.rows[i].leaseBoot == w.coord.boot
  {
    ReachableInv(env, w);
  }

  /** Once a newer login of the user is active, or was ever seen, events of an older one change nothing. */
  lemma SupersededEventsIgnored(env: Env, w: World, session: Session, messageId: nat)
    requires Reachable(env, w)
    requires || (session.user in w.coord.active && session.generation < w.coord.active[session.user].generation)
             || (session.user in w.coord.observed && session.generation < w.coord.observed[session.user])
    ensures AckResultOf(w, session, messageId) == AckNotRecipient && Acknowledge(env, w, session, messageId) == w
    ensures Resume(env, w, session) == w && SessionAvailable(env, w, session) == w
  {
    hide Ledger.Exact;
    ReachableInv(env, w);
    assert Fenced(w.rows, w.coord);
  }

  /** A late close of another session takes no row from the active one: it only lets it claim. */
  lemma LateCloseHarmless(env: Env, w: World, session: Session)
    requires Reachable(env, w) && session.user in w.coord.active && w.coord.active[session.user] != session
    ensures SessionClosed(env, w, session)
         == ClaimFor(env, w.(coord := w.coord.(paused := w.coord.paused - {session})), w.coord.active[session.user])
  {
    ReachableInv(env, w);
    var w1 := w.(coord := w.coord.(paused := w.coord.paused - {session}));
    forall j | 0 <= j < |w.rows| ensures !HeldBy(w.rows[j], session) {}
    CloseFromNothing(env, w1, session, 0);
  }

  lemma CloseFromNothing(env: Env, w: World, session: Session, i: nat)
    requires i <= |w.rows| && forall j :: 0 <= j < |w.rows| ==> !HeldBy(w.rows[j], session)
    ensures CloseFrom(env, w, session, i) == w
    decreases |w.rows| - i
  {}

  // ---- Obligations ----

  lemma ReachableTimed(env: Env, w: World)
    requires Reachable(env, w)
    ensures Dated(env, w.cleaned, w.clockReads)
  {
    hide Run;
    var boot, ops :| w == Run(env, Initial(boot), ops);
    RunTimed(env, boot, ops);
  }

  /**
    Every accepted (message, recipient) has its row until a cleanup takes it.  A
    cleanup goes by one reading of the clock, and takes only rows that by then
    had been acknowledged, or expired, for at least their own retention.
  */
  lemma NoObligationLost(env: Env, w: World, id: nat, user: nat)
    requires Reachable(env, w) && id in w.ledger.messages && user in RecipientsFor(w.ledger.messages[id].command)
    ensures IndexOf(w.rows, Key(id, user)) >= 0 || WasCleaned(w.cleaned, Key(id, user))
    ensures forall r :: 0 <= r < |w.cleaned| ==> DatedRemoval(env, w.clockReads, w.cleaned[r])
  {
    hide DatedRemoval;
    hide Deliveries;
    hide Ledger.Exact;
    ReachableInv(env, w);
    InvOwed(w);
    ReachableTimed(env, w);
  }

  /** Nothing a later run does undoes an acknowledgement, loses an open row, or reuses a key. */
  lemma AcknowledgedIsFinal(env: Env, w: World, ops: seq<Op>, i: nat)
    requires Reachable(env, w) && i < |w.rows|
    ensures var w', k := Run(env, w, ops), w.rows[i].Id(); var j := IndexOf(w'.rows, k);
      && (j < 0 ==> WasCleaned(w'.cleaned, k))
      && (j >= 0 && w.rows[i].state == Acknowledged ==> w'.rows[j].state == Acknowledged)
      && (j >= 0 ==> w.rows[i].attempts <= w'.rows[j].attempts && w'.rows[j].expiresAt == w.rows[i].expiresAt)
  {
    hide Deliveries;
    hide Ledger.Exact;
    ReachableInv(env, w);
    RunInv(env, w, ops);
    assert RowFate(w.rows[i], Run(env, w, ops));
  }

  lemma {:induction false} AcksFromOps(env: Env, boot: nat, ops: seq<Op>, k: Key)
    requires env.cfg.leaseMs > 0 && k in Run(env, Initial(boot), ops).acks
    ensures exists n :: 0 <= n < |ops| && k in AckedBy(ops[n])
  {
    hide Deliveries;
    hide Ledger.Exact;
    hide Step;
    hide Evolves;
    if ops != [] {
      var before := ops[..|ops| - 1];
      InitialInv(boot);
      RunInv(env, Initial(boot), before);
      StepInv(env, Run(env, Initial(boot), before), ops[|ops| - 1]);
      if k !in AckedBy(ops[|ops| - 1]) {
        AcksFromOps(env, boot, before, k);
        var n :| 0 <= n < |before| && k in AckedBy(before[n]);
        assert ops[n] == before[n];
      }
    }
  }

  lemma LegacyAcked(w: World, i: nat)
    requires Inv(w) && i < |w.rows| && w.rows[i].state == Acknowledged && w.rows[i].Id() !in w.acks
    ensures LegacyRow(w.ledger.messages, w.rows[i]) && Admissions(w.log, w.rows[i].Id()) == 1
  {
    hide Ledger.Exact;
    assert w.rows[i].attempts == Admissions(w.log, w.rows[i].Id());
  }

  /** A row is acknowledged only by an ACK of its own recipient or, for a legacy id, by an admission. */
  lemma AcknowledgedByRecipient(env: Env, boot: nat, ops: seq<Op>, i: nat)
    requires env.cfg.leaseMs > 0
    requires var w := Run(env, Initial(boot), ops); i < |w.rows| && w.rows[i].state == Acknowledged
    ensures var w := Run(env, Initial(boot), ops); var k := w.rows[i].Id();
      || (exists n :: 0 <= n < |ops| && ops[n].OpAcknowledge?
            && ops[n].messageId == k.message && ops[n].acker.user == k.recipient)
      || (LegacyRow(w.ledger.messages, w.rows[i]) && Admissions(w.log, k) == 1)
  {
    hide Deliveries;
    hide Ledger.Exact;
    hide Evolves;
    hide Run;
    var w := Run(env, Initial(boot), ops);
    var k := w.rows[i].Id();
    InitialInv(boot);
    RunInv(env, Initial(boot), ops);
    if k in w.acks {
      AcksFromOps(env, boot, ops, k);
      var n :| 0 <= n < |ops| && k in AckedBy(ops[n]);
    } else {
      LegacyAcked(w, i);
    }
  }

  // ---- Attempts ----

  /**
    A row's attempt count is the number of admissions by the sink, attempts are
    numbered by the admissions before them, and a legacy delivery is admitted
    at most once and never rests in flight.
  */
  lemma AttemptsAreAdmissions(env: Env, w: World)
    requires Reachable(env, w)
    ensures forall i :: 0 <= i < |w.rows| ==> w.rows[i].attempts == Admissions(w.log, w.rows[i].Id())
    ensures forall e :: 0 <= e < |w.log| ==> w.log[e].number == Admissions(w.log[..e], w.log[e].Id()) + 1
    ensures forall k: Key :: k.message in w.ledger.messages && IsLegacy(w.ledger.messages[k.message].command.clientId)
              ==> Admissions(w.log, k) <= 1
    ensures forall i :: 0 <= i < |w.rows| && LegacyRow(w.ledger.messages, w.rows[i]) ==> w.rows[i].state != InFlight
  {
    hide Ledger.Exact;
    ReachableInv(env, w);
  }

  // ---- Accepting ----

  /**
    In every reachable state keys, messages and outbox events correspond one to
    one, and the sequence numbers of a conversation are 1, 2, 3, ... in the
    order of message ids.
  */
  lemma LedgerIsExact(env: Env, w: World)
    requires Reachable(env, w)
    ensures var l := w.ledger;
      && (forall k :: k in l.accepted ==>
            && l.accepted[k].id in l.messages && l.messages[l.accepted[k].id] == l.accepted[k]
            && Ledger.KeyOf(l.accepted[k]) == k)
      && (forall id :: id in l.messages ==>
            Ledger.KeyOf(l.messages[id]) in l.accepted && l.accepted[Ledger.KeyOf(l.messages[id])].id == id)
      && (forall i :: 0 <= i < |l.outbox| ==> l.outbox[i].aggregate == i + 1 && i + 1 in l.messages)
      && (forall id :: id in l.messages ==> 1 <= id <= |l.outbox|)
      && (forall a, b :: a in l.messages && b in l.messages && a < b
            && l.messages[a].conversation == l.messages[b].conversation
            ==> l.messages[a].sequence < l.messages[b].sequence)
      && (forall id :: id in l.messages ==>
            && l.messages[id].conversation in l.lastSequence
            && 1 <= l.messages[id].sequence <= l.lastSequence[l.messages[id].conversation])
      && (forall c, s :: c in l.lastSequence && 1 <= s <= l.lastSequence[c] ==> Ledger.Holds(l.messages, c, s))
  {
    hide Deliveries;
    ReachableInv(env, w);
  }

  /**
    Accepting is idempotent: whatever happens afterwards, repeating an accepted
    command returns the original identity as a duplicate.
  */
  lemma AcceptIsIdempotent(env: Env, w: World, sender: Session, cmd: Command, ops: seq<Op>)
    requires Reachable(env, w) && AcceptOutcomeOf(env, w, sender, cmd).Taken?
    ensures var first := AcceptOutcomeOf(env, w, sender, cmd);
      var later := Run(env, Accept(env, w, sender, cmd), ops);
      AcceptOutcomeOf(env, later, sender, cmd) == first.(duplicate := true)
  {
    hide Deliveries;
    hide Ledger.Accepted;
    hide Ledger.AcceptedMessage;
    ReachableInv(env, w);
    AcceptInv(env, w, sender, cmd);
    var w1 := Accept(env, w, sender, cmd);
    RunInv(env, w1, ops);
    var later := Run(env, w1, ops);
    AcceptStores(env, w, sender, cmd);
    var k := Ledger.AcceptKey(sender.user, cmd.clientId);
    var id := w1.ledger.accepted[k].id;
    KeyPersists(w1.ledger, later.ledger, k);
  }

  lemma KeyPersists(l: Ledger.Ledger, l': Ledger.Ledger, k: Ledger.AcceptKey)
    requires Ledger.Exact(l) && Ledger.Exact(l') && k in l.accepted
    requires forall id :: id in l.messages ==> id in l'.messages && l'.messages[id] == l.messages[id]
    ensures k in l'.accepted && l'.accepted[k] == l.accepted[k]
  {
    var id := l.accepted[k].id;
    assert Ledger.KeyOf(l'.messages[id]) == k;
  }

  lemma AcceptStores(env: Env, w: World, sender: Session, cmd: Command)
    requires env.cfg.leaseMs > 0 && Inv(w) && AcceptOutcomeOf(env, w, sender, cmd).Taken?
    ensures var k, first := Ledger.AcceptKey(sender.user, cmd.clientId), AcceptOutcomeOf(env, w, sender, cmd);
      var l := Accept(env, w, sender, cmd).ledger;
      && k in l.accepted && SamePayload(l.accepted[k].command, cmd)
      && l.accepted[k].id == first.id && l.accepted[k].conversation == first.conversation
      && l.accepted[k].sequence == first.sequence
  {
    hide Deliveries;
    hide Ledger.Accepted;
    hide Ledger.AcceptedMessage;
    var k := Ledger.AcceptKey(sender.user, cmd.clientId);
    if k in w.ledger.accepted {
      OnAcceptedInv(env, w, RecipientsFor(w.ledger.accepted[k].command));
    } else {
      Ledger.AcceptedExact(w.ledger, sender.user, cmd, env.clock(w.clockReads));
      EnrolInv(env, w, sender.user, cmd);
      OnAcceptedInv(env, Enrol(env, w, sender.user, cmd), RecipientsFor(cmd));
    }
  }

  /** Repeats and conflicts add nothing to the ledger or the table. */
  lemma RepeatAddsNothing(env: Env, w: World, sender: Session, cmd: Command)
    requires Reachable(env, w) && Ledger.AcceptKey(sender.user, cmd.clientId) in w.ledger.accepted
    ensures var w' := Accept(env, w, sender, cmd);
      && w'.ledger == w.ledger && RowsKept(w.rows, w'.rows) && w'.cleaned == w.cleaned
      && (AcceptOutcomeOf(env, w, sender, cmd) == IdempotencyConflict ==> w' == w)
  {
    hide Deliveries;
    hide Ledger.Exact;
    hide OnAccepted;
    ReachableInv(env, w);
    OnAcceptedInv(env, w, RecipientsFor(w.ledger.accepted[Ledger.AcceptKey(sender.user, cmd.clientId)].command));
  }
}
