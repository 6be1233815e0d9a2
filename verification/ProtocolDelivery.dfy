/**
  Whom the operations reach: an accept, a repeat and a wakeup deliver to online
  recipients, a resume delivers again, a close takes every lease back, a login
  keeps its own, and a paused session is left in peace until it resumes.
*/
module ProtocolDelivery {
  import opened Domain
  import opened Protocol
  import opened ProtocolSafety
  import opened ProtocolAccept
  import opened ProtocolTheorems
  import opened ProtocolClaims
  import opened ProtocolProgress
  import opened ProtocolAnswers
  import Ledger

  // ---- Reaching a recipient ----

  /** The sink answered Paused to an attempt to this user, counting from a position of the log. */
  ghost predicate PausedSince(log: seq<Attempt>, from: nat, user: nat) {
    exists e :: from <= e < |log| && log[e].recipient == user && log[e].answer == Paused
  }

  /** The delivery was attempted, or the sink paused its recipient first. */
  ghost predicate Reached(log: seq<Attempt>, from: nat, k: Key) {
    Attempted(log, from, k) || PausedSince(log, from, k.recipient)
  }

  lemma ReachedMore(log: seq<Attempt>, log': seq<Attempt>, from: nat, later: nat, k: Key)
    requires Reached(log, later, k) && log <= log' && from <= later
    ensures Reached(log', from, k)
  {
    if Attempted(log, later, k) {
      var e :| later <= e < |log| && log[e].Id() == k;
      assert log'[e] == log[e];
    } else {
      var e :| later <= e < |log| && log[e].recipient == k.recipient && log[e].answer == Paused;
      assert log'[e] == log[e];
    }
  }

  /** A claim pauses its session only on the sink's word. */
  lemma ClaimPauses(env: Env, w: World, session: Session)
    requires env.cfg.leaseMs > 0 && session !in w.coord.paused
    ensures var w' := ClaimFor(env, w, session);
      && session in w'.coord.paused ==> PausedSince(w'.log, |w.log|, session.user)
  {
    hide ClaimFor;
    hide ClaimedRows;
    ClaimExactly(env, w, session);
    var w' := ClaimFor(env, w, session);
    if session in w'.coord.paused {
      assert w'.log[|w'.log| - 1].answer == Paused;
    }
  }

  lemma ClaimReaches(env: Env, w: World, session: Session, conv: nat, i: nat)
    requires env.cfg.leaseMs > 0 && Filed(w.rows, w.ledger.messages) && session !in w.coord.paused
    requires Waits(w, session.user, conv, i)
    ensures Reached(ClaimFor(env, w, session).log, |w.log|, w.rows[i].Id())
  {
    hide ClaimFor;
    hide PausedSince;
    hide Attempted;
    hide Filed;
    ClaimPauses(env, w, session);
    ClaimAttempts(env, w, session, conv, i);
  }

  /** Each user's active session is one of that user. */
  ghost predicate OwnSessions(c: Coordinator) {
    forall u :: u in c.active ==> c.active[u].user == u
  }

  lemma InvOwnSessions(w: World)
    requires Inv(w)
    ensures OwnSessions(w.coord)
  {}

  lemma {:induction false} OnAcceptedGrows(env: Env, w: World, recipients: seq<nat>)
    requires env.cfg.leaseMs > 0
    ensures w.log <= OnAccepted(env, w, recipients).log
    decreases |recipients|
  {
    hide ClaimFor;
    if recipients != [] {
      var u := recipients[0];
      var w1 := if u in w.coord.active then ClaimFor(env, w, w.coord.active[u]) else w;
      if u in w.coord.active {
        ClaimForUser(env, w, w.coord.active[u]);
      }
      OnAcceptedGrows(env, w1, recipients[1..]);
    }
  }

  lemma {:induction false} OnAcceptedReaches(env: Env, w: World, recipients: seq<nat>, u: nat, conv: nat, i: nat)
    requires env.cfg.leaseMs > 0 && Filed(w.rows, w.ledger.messages) && OwnSessions(w.coord)
    requires u in recipients && u in w.coord.active && w.coord.active[u] !in w.coord.paused && Waits(w, u, conv, i)
    ensures Reached(OnAccepted(env, w, recipients).log, |w.log|, WaitsAt(w, u, conv, i).Id())
    decreases |recipients|
  {
    hide ClaimFor;
    hide Filed;
    hide Waits;
    hide Reached;
    var x, k, w' := recipients[0], WaitsAt(w, u, conv, i).Id(), OnAccepted(env, w, recipients);
    if x == u {
      var w1 := ClaimFor(env, w, w.coord.active[u]);
      ClaimReaches(env, w, w.coord.active[u], conv, i);
      OnAcceptedGrows(env, w1, recipients[1..]);
      ReachedMore(w1.log, w'.log, |w.log|, |w.log|, k);
    } else if x in w.coord.active {
      var s := w.coord.active[x];
      var w1 := ClaimFor(env, w, s);
      ClaimForUser(env, w, s);
      ClaimKeepsSessions(env, w, s);
      OnlyUserKeeps(w, w1, s, u, conv, i);
      OnAcceptedReaches(env, w1, recipients[1..], u, conv, i);
      ReachedMore(w'.log, w'.log, |w.log|, |w1.log|, k);
    } else {
      OnAcceptedReaches(env, w, recipients[1..], u, conv, i);
    }
  }

  /** A wakeup attempts the first open row of every lane of each online recipient named, unless the sink pauses them. */
  lemma WakeupReaches(env: Env, w: World, recipients: seq<nat>, u: nat, conv: nat, i: nat)
    requires Reachable(env, w) && u in recipients && u in w.coord.active
    requires w.coord.active[u] !in w.coord.paused && Waits(w, u, conv, i)
    ensures Reached(Step(env, w, OpWakeup(recipients)).log, |w.log|, w.rows[i].Id())
  {
    hide Deliveries;
    hide Ledger.Exact;
    hide OnAccepted;
    hide Filed;
    hide Reached;
    hide OwnSessions;
    ReachableInv(env, w);
    InvFiled(w);
    InvOwnSessions(w);
    OnAcceptedReaches(env, w, recipients, u, conv, i);
  }

  /** So does the same command accepted again, for the users it is for. */
  lemma RepeatReaches(env: Env, w: World, sender: Session, cmd: Command, u: nat, conv: nat, i: nat)
    requires Reachable(env, w) && Ledger.AcceptKey(sender.user, cmd.clientId) in w.ledger.accepted
    requires !Differs(w.ledger.accepted[Ledger.AcceptKey(sender.user, cmd.clientId)].command, cmd) && IsFor(cmd, u)
    requires u in w.coord.active && w.coord.active[u] !in w.coord.paused && Waits(w, u, conv, i)
    ensures Reached(Step(env, w, OpAccept(sender, cmd)).log, |w.log|, w.rows[i].Id())
  {
    hide OnAccepted;
    hide Filed;
    hide Reached;
    hide OwnSessions;
    hide Waits;
    ReachableInv(env, w);
    InvFiled(w);
    InvOwnSessions(w);
    hide Deliveries;
    var k := Ledger.AcceptKey(sender.user, cmd.clientId);
    assert Ledger.KeyOf(w.ledger.accepted[k]) == k;
    OnAcceptedReaches(env, w, RecipientsFor(w.ledger.accepted[k].command), u, conv, i);
    assert WaitsAt(w, u, conv, i) == w.rows[i];
  }

  // ---- A first accept ----

  /** The first open row of a lane is the one with the smallest number, the earliest of equals. */
  lemma {:induction false} HeadIs(rows: seq<Delivery>, ms: map<nat, Message>, user: nat, conv: nat, n: nat, i: nat)
    requires i < n <= |rows| && Candidate(rows[i], user, conv)
    requires forall j :: 0 <= j < n && j != i && Candidate(rows[j], user, conv) ==>
      SequenceOf(ms, rows[i]) < SequenceOf(ms, rows[j])
    ensures HeadBelow(rows, ms, user, conv, n) == i
  {}

  /** A message added behind leaves a waiting lane waiting. */
  lemma EnrolKeepsWaiting(w: World, w1: World, m: Message, u: nat, conv: nat, i: nat)
    requires Filed(w.rows, w.ledger.messages) && Extends(w.ledger.messages, m)
    requires w1.ledger.messages == w.ledger.messages[m.id := m]
    requires w.rows <= w1.rows && NewFor(w1.rows[|w.rows|..], m) && Waits(w, u, conv, i) && HeadAlone(w, u, conv, i)
    ensures Waits(w1, u, conv, i) && w1.rows[i] == w.rows[i]
  {
    var ms := w1.ledger.messages;
    forall j | 0 <= j < |w1.rows| && j != i && Candidate(w1.rows[j], u, conv)
      ensures SequenceOf(ms, w1.rows[i]) < SequenceOf(ms, w1.rows[j])
    {
      if j < |w.rows| {
        assert w1.rows[j] == w.rows[j];
      } else {
        assert w1.rows[j] == w1.rows[|w.rows|..][j - |w.rows|];
      }
    }
    HeadIs(w1.rows, ms, u, conv, |w1.rows|, i);
  }

  /** No other open row of the lane has as small a number. */
  ghost predicate HeadAlone(w: World, u: nat, conv: nat, i: nat) {
    i < |w.rows| && forall j :: 0 <= j < |w.rows| && j != i && Candidate(w.rows[j], u, conv) ==>
      SequenceOf(w.ledger.messages, w.rows[i]) < SequenceOf(w.ledger.messages, w.rows[j])
  }

  lemma WaitsAlone(w: World, u: nat, conv: nat, i: nat)
    requires Inv(w) && Waits(w, u, conv, i)
    ensures HeadAlone(w, u, conv, i)
  {
    forall j | 0 <= j < |w.rows| && j != i && Candidate(w.rows[j], u, conv)
      ensures SequenceOf(w.ledger.messages, w.rows[i]) < SequenceOf(w.ledger.messages, w.rows[j])
    {
      NumbersDiffer(w, i, j);
    }
  }

  lemma NumbersDiffer(w: World, i: nat, j: nat)
    requires Inv(w) && i < |w.rows| && j < |w.rows| && i != j
    requires w.rows[i].recipient == w.rows[j].recipient && w.rows[i].conversation == w.rows[j].conversation
    ensures SequenceOf(w.ledger.messages, w.rows[i]) != SequenceOf(w.ledger.messages, w.rows[j])
  {
    hide Ledger.KeysMatch;
    hide Ledger.EventsMatch;
    hide Ledger.ConversationsMatch;
    assert w.rows[i].Id() != w.rows[j].Id() by {
      if i < j {
        assert KeyLess(w.rows[i].Id(), w.rows[j].Id());
      } else {
        assert KeyLess(w.rows[j].Id(), w.rows[i].Id());
      }
    }
    var a, b := w.rows[i].messageId, w.rows[j].messageId;
    assert a in w.ledger.messages && b in w.ledger.messages && a != b;
  }

  /** In a lane without open rows, the new row is the first. */
  lemma EnrolFirst(w: World, w1: World, m: Message, u: nat, i: nat)
    requires w.rows <= w1.rows && NewFor(w1.rows[|w.rows|..], m) && Sorted(w1.rows)
    requires w1.ledger.messages == w.ledger.messages[m.id := m]
    requires forall j :: 0 <= j < |w.rows| ==> !Candidate(w.rows[j], u, m.conversation)
    requires |w.rows| <= i < |w1.rows| && w1.rows[i].recipient == u
    ensures Waits(w1, u, m.conversation, i) && w1.rows[i].Id() == Key(m.id, u)
  {
    assert w1.rows[i] == w1.rows[|w.rows|..][i - |w.rows|];
    forall j | 0 <= j < |w1.rows| && j != i ensures !Candidate(w1.rows[j], u, m.conversation) {
      if j < |w.rows| {
        assert w1.rows[j] == w.rows[j];
      } else {
        assert w1.rows[j] == w1.rows[|w.rows|..][j - |w.rows|];
        assert w1.rows[j].Id() != w1.rows[i].Id() by {
          if i < j {
            assert KeyLess(w1.rows[i].Id(), w1.rows[j].Id());
          } else {
            assert KeyLess(w1.rows[j].Id(), w1.rows[i].Id());
          }
        }
      }
    }
    HeadIs(w1.rows, w1.ledger.messages, u, m.conversation, |w1.rows|, i);
  }

  /** What a first accept leaves before it delivers. */
  lemma EnrolShape(env: Env, w: World, sender: Session, cmd: Command)
    requires Inv(w) && Ledger.AcceptKey(sender.user, cmd.clientId) !in w.ledger.accepted
    ensures var w1 := Enrol(env, w, sender.user, cmd);
      var m := Ledger.AcceptedMessage(w.ledger, sender.user, cmd, env.clock(w.clockReads));
      && Inv(w1) && Extends(w.ledger.messages, m) && m.command == cmd
      && w1.ledger.messages == w.ledger.messages[m.id := m]
      && w.rows <= w1.rows && NewFor(w1.rows[|w.rows|..], m) && w1.log == w.log && w1.coord == w.coord
      && (forall u :: IsFor(cmd, u) ==> exists i :: |w.rows| <= i < |w1.rows| && w1.rows[i].recipient == u)
  {
    hide Deliveries;
    hide Ledger.Exact;
    hide Ledger.Accepted;
    hide Ledger.AcceptedMessage;
    hide RecordCreated;
    hide InsertRows;
    EnrolInv(env, w, sender.user, cmd);
    AcceptedExtends(w.ledger, sender.user, cmd, env.clock(w.clockReads));
    var m := Ledger.AcceptedMessage(w.ledger, sender.user, cmd, env.clock(w.clockReads));
    hide Extends;
    EnrolNew(w, m, env.clock(w.clockReads + 1) + env.cfg.messageRetentionMs);
  }

  lemma EnrolNew(w: World, m: Message, expiresAt: int)
    requires Deliveries(w) && Extends(w.ledger.messages, m)
    ensures var rows' := InsertRows(w.rows, m, RecipientsFor(m.command), expiresAt);
      && w.rows <= rows' && NewFor(rows'[|w.rows|..], m)
      && (forall u :: IsFor(m.command, u) ==> exists i :: |w.rows| <= i < |rows'| && rows'[i].recipient == u)
  {
    RowsBefore(w, m);
    hide Deliveries;
    hide InsertRows;
    EnrolRows(w.rows, m, RecipientsFor(m.command), expiresAt);
    var added := InsertRows([], m, RecipientsFor(m.command), expiresAt);
    var rows' := InsertRows(w.rows, m, RecipientsFor(m.command), expiresAt);
    assert rows'[|w.rows|..] == added;
    forall u | IsFor(m.command, u) ensures exists i :: |w.rows| <= i < |rows'| && rows'[i].recipient == u {
      assert u in RecipientsFor(m.command);
      var i := IndexOf(added, Key(m.id, u));
      assert added[i].Id() == Key(m.id, u);
      assert rows'[|w.rows| + i] == added[i];
    }
  }

  /**
    A first accept delivers at once: to an online, unpaused recipient with nothing
    open in that conversation, the new message itself is attempted, unless the sink
    pauses the recipient first.
  */
  lemma FirstAcceptReaches(env: Env, w: World, sender: Session, cmd: Command, u: nat)
    requires Reachable(env, w) && Ledger.AcceptKey(sender.user, cmd.clientId) !in w.ledger.accepted
    requires IsFor(cmd, u) && u in w.coord.active && w.coord.active[u] !in w.coord.paused
    requires var o := AcceptOutcomeOf(env, w, sender, cmd);
      o.Taken? && forall j :: 0 <= j < |w.rows| ==> !Candidate(w.rows[j], u, o.conversation)
    ensures Reached(Step(env, w, OpAccept(sender, cmd)).log, |w.log|, Key(AcceptOutcomeOf(env, w, sender, cmd).id, u))
  {
    hide Deliveries;
    hide Ledger.Exact;
    hide Ledger.AcceptedMessage;
    hide OnAccepted;
    hide Enrol;
    hide Reached;
    hide OwnSessions;
    hide NewFor;
    hide Extends;
    ReachableInv(env, w);
    var w1 := Enrol(env, w, sender.user, cmd);
    var m := Ledger.AcceptedMessage(w.ledger, sender.user, cmd, env.clock(w.clockReads));
    EnrolShape(env, w, sender, cmd);
    var i :| |w.rows| <= i < |w1.rows| && w1.rows[i].recipient == u;
    InvSorted(w1);
    EnrolFirst(w, w1, m, u, i);
    InvFiled(w1);
    InvOwnSessions(w1);
    OnAcceptedReaches(env, w1, RecipientsFor(cmd), u, m.conversation, i);
  }

  /** It also attempts the first open row of each of the recipient's lanes that was waiting. */
  lemma FirstAcceptReachesLanes(env: Env, w: World, sender: Session, cmd: Command, u: nat, conv: nat, i: nat)
    requires Reachable(env, w) && Ledger.AcceptKey(sender.user, cmd.clientId) !in w.ledger.accepted
    requires IsFor(cmd, u) && u in w.coord.active && w.coord.active[u] !in w.coord.paused && Waits(w, u, conv, i)
    ensures Reached(Step(env, w, OpAccept(sender, cmd)).log, |w.log|, w.rows[i].Id())
  {
    hide Deliveries;
    hide Ledger.Exact;
    hide Ledger.AcceptedMessage;
    hide OnAccepted;
    hide Enrol;
    hide Reached;
    hide OwnSessions;
    hide NewFor;
    hide Extends;
    hide Waits;
    hide HeadAlone;
    ReachableInv(env, w);
    var w1 := Enrol(env, w, sender.user, cmd);
    var m := Ledger.AcceptedMessage(w.ledger, sender.user, cmd, env.clock(w.clockReads));
    EnrolShape(env, w, sender, cmd);
    InvFiled(w);
    WaitsAlone(w, u, conv, i);
    EnrolKeepsWaiting(w, w1, m, u, conv, i);
    InvFiled(w1);
    InvOwnSessions(w1);
    OnAcceptedReaches(env, w1, RecipientsFor(cmd), u, conv, i);
    assert WaitsAt(w1, u, conv, i) == w.rows[i];
  }
}
