/**
  Sessions: what a resume, a close and a login do to the rows, exactly, and that a
  session is paused by the sink alone and attempted no more until it resumes.
*/
module ProtocolSessions {
  import opened Domain
  import opened Protocol
  import opened ProtocolSafety
  import opened ProtocolRuns
  import opened ProtocolTheorems
  import opened ProtocolClaims
  import opened ProtocolProgress
  import opened ProtocolDelivery
  import Ledger

  // ---- Resuming ----

  /**
    A resume of the active session lets it go on: afterwards nothing of its user's
    stays claimable that the sink did not refuse, and the session is paused only if
    the sink paused it again.
  */
  lemma ResumeGoesOn(env: Env, w: World, session: Session)
    requires Reachable(env, w) && session.user in w.coord.active && w.coord.active[session.user] == session
    ensures var w' := Resume(env, w, session);
      && NothingLeft(w', session, env.clock(w.clockReads), |w.log|)
      && (session in w'.coord.paused ==> PausedSince(w'.log, |w.log|, session.user))
      && LogTo(w.log, w'.log, session.user)
  {
    hide Ledger.Exact;
    hide ClaimFor;
    hide NothingLeft;
    hide PausedSince;
    ReachableInv(env, w);
    InvFiled(w);
    ActiveIsNewest(w, session);
    hide Deliveries;
    var w1 := w.(coord := w.coord.(paused := w.coord.paused - {session}));
    ClaimLeavesNothing(env, w1, session);
    ClaimPauses(env, w1, session);
    ClaimExactly(env, w1, session);
  }

  lemma ActiveIsNewest(w: World, session: Session)
    requires Deliveries(w) && session.user in w.coord.active && w.coord.active[session.user] == session
    ensures !Outdated(w.coord, session)
  {}

  // ---- Closing ----

  /** The row waits again, free of any lease, and is otherwise what it was. */
  predicate Released(d: Delivery, d': Delivery) {
    && d'.Id() == d.Id() && d'.conversation == d.conversation && d'.expiresAt == d.expiresAt
    && d'.state == Pending && d'.leaseOwner == NO_SESSION && d'.leaseUntil == 0
    && d'.attempts == d.attempts && d'.lastSentAt == d.lastSentAt && d'.nextAttemptAt == d.nextAttemptAt
  }

  /** In flight under this session. */
  predicate Holds(d: Delivery, session: Session) {
    d.recipient == session.user && d.state == InFlight && d.leaseOwner == session
  }

  /** Exactly the rows the session held wait again; the others stay as they are. */
  ghost predicate RowsReleased(rows: seq<Delivery>, rows': seq<Delivery>, session: Session) {
    |rows'| == |rows| && forall j :: 0 <= j < |rows| ==>
      if Holds(rows[j], session) then Released(rows[j], rows'[j]) else rows'[j] == rows[j]
  }

  lemma CloseReleases(env: Env, w: World, session: Session)
    ensures var w' := CloseFrom(env, w, session, 0);
      && RowsReleased(w.rows, w'.rows, session)
      && w'.coord == w.coord && w'.log == w.log && w'.clockReads == w.clockReads
  {
    hide CloseFrom;
    CloseFromRows(env, w, session, 0);
  }

  /** The session is neither active nor paused, holds nothing, and other users' sessions stay. */
  ghost predicate Ended(w: World, w': World, session: Session) {
    && session !in w'.coord.paused
    && (session.user in w'.coord.active ==> w'.coord.active[session.user] != session)
    && (forall u :: u in w.coord.active && w.coord.active[u] != session ==>
          u in w'.coord.active && w'.coord.active[u] == w.coord.active[u])
    && (forall j :: 0 <= j < |w'.rows| ==> !Holds(w'.rows[j], session))
  }

  lemma ReleasedHoldNothing(rows: seq<Delivery>, rows': seq<Delivery>, session: Session)
    requires RowsReleased(rows, rows', session)
    ensures forall j :: 0 <= j < |rows'| ==> !Holds(rows'[j], session)
  {}

  lemma CloseShuts(env: Env, w: World, session: Session)
    requires env.cfg.leaseMs > 0 && OwnSessions(w.coord)
    ensures var w' := SessionClosed(env, w, session);
      && Ended(w, w', session)
      && (session.user !in w.coord.active || w.coord.active[session.user] == session ==>
            w'.log == w.log && RowsReleased(w.rows, w'.rows, session))
  {
    hide CloseFrom;
    hide Holds;
    hide RowsReleased;
    var mine := session.user in w.coord.active && w.coord.active[session.user] == session;
    var w1 := w.(coord := w.coord.(paused := w.coord.paused - {session},
                                   active := if mine then w.coord.active - {session.user} else w.coord.active));
    var w2 := CloseFrom(env, w1, session, 0);
    CloseReleases(env, w1, session);
    ReleasedHoldNothing(w1.rows, w2.rows, session);
    if session.user in w1.coord.active {
      hide ClaimFor;
      hide ClaimEffect;
      var s := w1.coord.active[session.user];
      ClaimExactly(env, w2, s);
      OtherClaimHolds(env.cfg, w2, ClaimFor(env, w2, s), session, s, env.clock(w2.clockReads));
    }
  }

  /**
    A close ends the session: it is neither active nor paused, no row is in flight
    under it, and unless another login of the user is active, exactly the rows it
    held wait again, the others stay as they are and nothing is attempted.
  */
  lemma CloseEnds(env: Env, w: World, session: Session)
    requires Reachable(env, w)
    ensures var w' := SessionClosed(env, w, session);
      && Ended(w, w', session)
      && (session.user !in w.coord.active || w.coord.active[session.user] == session ==>
            w'.log == w.log && RowsReleased(w.rows, w'.rows, session))
  {
    hide Deliveries;
    hide Ledger.Exact;
    hide OwnSessions;
    hide Ended;
    hide RowsReleased;
    hide SessionClosed;
    ReachableInv(env, w);
    InvOwnSessions(w);
    CloseShuts(env, w, session);
  }

  lemma OtherClaimHolds(cfg: Config, w: World, w': World, session: Session, s: Session, now: int)
    requires s != session && forall j :: 0 <= j < |w.rows| ==> !Holds(w.rows[j], session)
    requires w' == w || exists stopped :: ClaimEffect(cfg, w, w', s, now, stopped)
    ensures forall j :: 0 <= j < |w'.rows| ==> !Holds(w'.rows[j], session)
    ensures w'.coord.active == w.coord.active && w'.coord.paused <= w.coord.paused + {s}
  {}

  // ---- Logging in ----

  lemma FenceReleases(env: Env, w: World, session: Session)
    ensures var w' := FenceFrom(env, w, session, 0);
      && |w'.rows| == |w.rows| && w'.coord == w.coord && w'.log == w.log && w'.clockReads == w.clockReads
      && (forall j :: 0 <= j < |w.rows| ==>
            if Stale(w, w.rows[j], session) then Released(w.rows[j], w'.rows[j]) else w'.rows[j] == w.rows[j])
  {
    hide FenceFrom;
    FenceFromRows(env, w, session, 0);
  }

  /**
    A login that is not superseded touches its own user's rows only; it takes
    nothing from itself, so a lease it already holds in this process goes on while
    it lasts, and closed rows stay closed.
  */
  lemma LoginTakesOnlyStale(env: Env, w: World, session: Session, j: nat)
    requires Reachable(env, w) && j < |w.rows|
    requires session.user in w.coord.observed ==> w.coord.observed[session.user] <= session.generation
    ensures var w', d := SessionAvailable(env, w, session), w.rows[j];
      && |w'.rows| == |w.rows| && LogTo(w.log, w'.log, session.user)
      && (d.recipient != session.user || d.state == Acknowledged || d.state == Expired ==> w'.rows[j] == d)
      && (Holds(d, session) && d.leaseBoot == w.coord.boot && d.leaseUntil > env.clock(w.clockReads) ==>
            w'.rows[j] == d)
      && (w'.rows[j].state == InFlight && d.recipient == session.user ==>
            w'.rows[j].leaseOwner == session && w'.rows[j].leaseBoot == w.coord.boot)
  {
    hide Ledger.Exact;
    hide FenceFrom;
    hide ClaimFor;
    hide Deliveries;
    hide ClaimEffect;
    hide LogTo;
    ReachableInv(env, w);
    hide Reachable;
    InvLeased(w, j);
    var w1 := w.(coord := w.coord.(observed := w.coord.observed[session.user := session.generation]));
    var w2 := FenceFrom(env, w1, session, 0);
    FenceReleases(env, w1, session);
    var w3 := w2.(coord := w2.coord.(active := w2.coord.active[session.user := session]));
    ClaimExactly(env, w3, session);
    ClaimTouches(env.cfg, w3, ClaimFor(env, w3, session), session, j, env.clock(w3.clockReads));
  }

  lemma InvLeased(w: World, j: nat)
    requires Inv(w) && j < |w.rows|
    ensures w.rows[j].state == InFlight ==> w.rows[j].leaseOwner.user == w.rows[j].recipient
  {}

  lemma ClaimTouches(cfg: Config, w: World, w': World, session: Session, j: nat, now: int)
    requires j < |w.rows| && (w' == w || exists stopped :: ClaimEffect(cfg, w, w', session, now, stopped))
    ensures |w'.rows| == |w.rows| && Touched(cfg, w.coord.boot, session, w.rows[j], w'.rows[j], now)
    ensures LogTo(w.log, w'.log, session.user)
  {}

  // ---- Pauses come from the sink ----

  /** Every session paused meanwhile was paused by an answer of the sink to its user. */
  ghost predicate PauseFair(w: World, w': World) {
    && w.log <= w'.log
    && forall s :: s in w'.coord.paused && s !in w.coord.paused ==> PausedSince(w'.log, |w.log|, s.user)
  }

  lemma PausedSinceMore(log: seq<Attempt>, log': seq<Attempt>, from: nat, later: nat, user: nat)
    requires PausedSince(log, later, user) && log <= log' && from <= later
    ensures PausedSince(log', from, user)
  {
    var e :| later <= e < |log| && log[e].recipient == user && log[e].answer == Paused;
    assert log'[e] == log[e];
  }

  lemma PauseFairTrans(a: World, b: World, c: World)
    requires PauseFair(a, b) && PauseFair(b, c)
    ensures PauseFair(a, c)
  {
    hide PausedSince;
    forall s | s in c.coord.paused && s !in a.coord.paused ensures PausedSince(c.log, |a.log|, s.user) {
      if s in b.coord.paused {
        PausedSinceMore(b.log, c.log, |a.log|, |a.log|, s.user);
      } else {
        PausedSinceMore(c.log, c.log, |a.log|, |b.log|, s.user);
      }
    }
  }

  lemma SameLogFair(w: World, w': World)
    requires w'.log == w.log && w'.coord.paused <= w.coord.paused
    ensures PauseFair(w, w')
  {}

  lemma ClaimFair(env: Env, w: World, session: Session)
    requires env.cfg.leaseMs > 0
    ensures PauseFair(w, ClaimFor(env, w, session))
  {
    hide ClaimFor;
    hide PausedSince;
    hide ClaimedRows;
    ClaimExactly(env, w, session);
    if session !in w.coord.paused {
      ClaimPauses(env, w, session);
    }
  }

  lemma {:induction false} OnAcceptedFair(env: Env, w: World, recipients: seq<nat>)
    requires env.cfg.leaseMs > 0
    ensures PauseFair(w, OnAccepted(env, w, recipients))
    decreases |recipients|
  {
    hide ClaimFor;
    hide PauseFair;
    SameLogFair(w, w);
    if recipients != [] {
      var u := recipients[0];
      if u in w.coord.active {
        var w1 := ClaimFor(env, w, w.coord.active[u]);
        ClaimFair(env, w, w.coord.active[u]);
        OnAcceptedFair(env, w1, recipients[1..]);
        PauseFairTrans(w, w1, OnAccepted(env, w1, recipients[1..]));
      } else {
        OnAcceptedFair(env, w, recipients[1..]);
      }
    }
  }

  lemma {:induction false} ClaimEachFair(env: Env, w: World, sessions: seq<Session>)
    requires env.cfg.leaseMs > 0
    ensures PauseFair(w, ClaimEach(env, w, sessions))
    decreases |sessions|
  {
    hide ClaimFor;
    hide PauseFair;
    SameLogFair(w, w);
    if sessions != [] {
      var w1 := ClaimFor(env, w, sessions[0]);
      ClaimFair(env, w, sessions[0]);
      ClaimEachFair(env, w1, sessions[1..]);
      PauseFairTrans(w, w1, ClaimEach(env, w1, sessions[1..]));
    }
  }

  /** What a tick does before it claims leaves the log and the sessions alone. */
  lemma TickPrefix(env: Env, w: World) returns (w1: World, sessions: seq<Session>)
    requires env.cfg.leaseMs > 0
    ensures Tick(env, w) == ClaimEach(env, w1, sessions)
    ensures w1.log == w.log && w1.coord.paused == w.coord.paused && w1.coord.active == w.coord.active
    ensures forall x :: x in sessions ==> exists u :: u in w.coord.active && w.coord.active[u] == x
  {
    hide ClaimEach;
    hide DueFrom;
    hide RecordExpiries;
    hide ExpireFrom;
    hide CleanFrom;
    hide Retriers;
    hide RollBack;
    var now := env.clock(w.clockReads);
    var w2 := Cleanup(env, ExpireOverdue(env, w.(clockReads := w.clockReads + 1), now), now);
    var w0 := w2.(coord := w2.coord.(tickNexts := []));
    var due := DueFrom(w2.rows, 0, now, env.cfg.retryBatchLimit);
    DueInRange(w2.rows, 0, now, env.cfg.retryBatchLimit);
    RollBackRows(env, w0, due);
    w1, sessions := RollBack(env, w0, due), Retriers(w0.coord, RowsAt(w2.rows, due));
    forall x | x in sessions ensures exists u :: u in w.coord.active && w.coord.active[u] == x {
      var i :| 0 <= i < |sessions| && sessions[i] == x;
      RetriersActive(w0.coord, RowsAt(w2.rows, due), i);
    }
  }

  lemma TickFair(env: Env, w: World)
    requires env.cfg.leaseMs > 0
    ensures PauseFair(w, Tick(env, w))
  {
    hide Tick;
    hide PauseFair;
    var w1, sessions := TickPrefix(env, w);
    SameLogFair(w, w1);
    ClaimEachFair(env, w1, sessions);
    PauseFairTrans(w, w1, ClaimEach(env, w1, sessions));
  }

  lemma AvailableFair(env: Env, w: World, session: Session)
    requires env.cfg.leaseMs > 0
    ensures PauseFair(w, SessionAvailable(env, w, session))
  {
    hide PauseFair;
    hide FenceFrom;
    hide ClaimFor;
    SameLogFair(w, w);
    if !Outdated(w.coord, session) {
      var w1 := w.(coord := w.coord.(observed := w.coord.observed[session.user := session.generation]));
      FenceReleases(env, w1, session);
      var w2 := FenceFrom(env, w1, session, 0);
      var w3 := w2.(coord := w2.coord.(active := w2.coord.active[session.user := session]));
      SameLogFair(w, w3);
      ClaimFair(env, w3, session);
      PauseFairTrans(w, w3, ClaimFor(env, w3, session));
    }
  }

  lemma ClosedFair(env: Env, w: World, session: Session)
    requires env.cfg.leaseMs > 0
    ensures PauseFair(w, SessionClosed(env, w, session))
  {
    hide PauseFair;
    hide CloseFrom;
    hide ClaimFor;
    hide RowsReleased;
    var mine := session.user in w.coord.active && w.coord.active[session.user] == session;
    var w1 := w.(coord := w.coord.(paused := w.coord.paused - {session},
                                   active := if mine then w.coord.active - {session.user} else w.coord.active));
    CloseReleases(env, w1, session);
    var w2 := CloseFrom(env, w1, session, 0);
    SameLogFair(w, w2);
    if session.user in w1.coord.active {
      ClaimFair(env, w2, w1.coord.active[session.user]);
      PauseFairTrans(w, w2, ClaimFor(env, w2, w1.coord.active[session.user]));
    }
  }

  lemma AckFair(env: Env, w: World, acker: Session, id: nat)
    requires env.cfg.leaseMs > 0
    ensures PauseFair(w, Acknowledge(env, w, acker, id))
  {
    hide PausedSince;
    hide ClaimFor;
    hide IndexOf;
    hide Known;
    if AckResultOf(w, acker, id) == AckAcknowledged {
      var i := IndexOf(w.rows, Key(id, acker.user));
      ClaimFair(env, AckRow(env, w, i), acker);
    }
  }

  lemma StepFair(env: Env, w: World, op: Op)
    requires env.cfg.leaseMs > 0
    ensures PauseFair(w, Step(env, w, op))
  {
    hide PauseFair;
    hide ClaimFor;
    hide OnAccepted;
    hide Tick;
    hide SessionAvailable;
    hide SessionClosed;
    hide Acknowledge;
    hide Enrol;
    SameLogFair(w, w);
    match op
    case OpAccept(sender, cmd) =>
      var k := Ledger.AcceptKey(sender.user, cmd.clientId);
      if k in w.ledger.accepted {
        OnAcceptedFair(env, w, RecipientsFor(w.ledger.accepted[k].command));
      } else {
        var w1 := Enrol(env, w, sender.user, cmd);
        EnrolQuiet(env, w, sender.user, cmd);
        SameLogFair(w, w1);
        OnAcceptedFair(env, w1, RecipientsFor(cmd));
        PauseFairTrans(w, w1, OnAccepted(env, w1, RecipientsFor(cmd)));
      }
    case OpAcknowledge(acker, id) => AckFair(env, w, acker, id);
    case OpAvailable(session) =>
      var w1 := SessionAvailable(env, w, session);
      AvailableFair(env, w, session);
      TickFair(env, w1);
      PauseFairTrans(w, w1, Tick(env, w1));
    case OpClosed(session) => ClosedFair(env, w, session);
    case OpResume(session) =>
      var w1 := w.(coord := w.coord.(paused := w.coord.paused - {session}));
      SameLogFair(w, w1);
      ClaimFair(env, w1, session);
      PauseFairTrans(w, w1, ClaimFor(env, w1, session));
    case OpWakeup(recipients) => OnAcceptedFair(env, w, recipients);
    case OpTick => TickFair(env, w);
    case OpRestart(boot) => SameLogFair(w, Step(env, w, op));
  }

  lemma EnrolQuiet(env: Env, w: World, sender: nat, cmd: Command)
    ensures Enrol(env, w, sender, cmd).log == w.log && Enrol(env, w, sender, cmd).coord == w.coord
  {}

  /** Over every run a session is paused only because the sink answered Paused to an attempt to its user. */
  lemma {:induction false} PausesAreAnswers(env: Env, boot: nat, ops: seq<Op>, session: Session)
    requires env.cfg.leaseMs > 0 && session in Run(env, Initial(boot), ops).coord.paused
    ensures PausedSince(Run(env, Initial(boot), ops).log, 0, session.user)
  {
    hide Step;
    hide PausedSince;
    if ops != [] {
      var w := Run(env, Initial(boot), ops[..|ops| - 1]);
      StepFair(env, w, ops[|ops| - 1]);
      var w' := Step(env, w, ops[|ops| - 1]);
      if session in w.coord.paused {
        PausesAreAnswers(env, boot, ops[..|ops| - 1], session);
        PausedSinceMore(w.log, w'.log, 0, 0, session.user);
      } else {
        PausedSinceMore(w'.log, w'.log, 0, |w.log|, session.user);
      }
    }
  }

  // ---- A paused session is left in peace ----

  /** The session is its user's active one and paused. */
  predicate Resting(c: Coordinator, s: Session) {
    s.user in c.active && c.active[s.user] == s && s in c.paused
  }

  /** Nothing was attempted to the session's user, and it rests still. */
  ghost predicate LeftInPeace(w: World, w': World, s: Session) {
    && w.log <= w'.log && (forall e :: |w.log| <= e < |w'.log| ==> w'.log[e].recipient != s.user)
    && Resting(w'.coord, s)
  }

  lemma PeaceTrans(a: World, b: World, c: World, s: Session)
    requires LeftInPeace(a, b, s) && LeftInPeace(b, c, s)
    ensures LeftInPeace(a, c, s)
  {
    forall e | |a.log| <= e < |c.log| ensures c.log[e].recipient != s.user {
      if e < |b.log| {
        assert c.log[e] == b.log[e];
      }
    }
  }

  lemma QuietPeace(w: World, w': World, s: Session)
    requires Resting(w'.coord, s) && w'.log == w.log
    ensures LeftInPeace(w, w', s)
  {}

  /** A claim for another user, or for the resting session itself, does not reach its user. */
  lemma ClaimPeace(env: Env, w: World, x: Session, s: Session)
    requires env.cfg.leaseMs > 0 && Resting(w.coord, s) && (x.user == s.user ==> x == s)
    ensures LeftInPeace(w, ClaimFor(env, w, x), s)
  {
    hide ClaimFor;
    ClaimExactly(env, w, x);
  }

  lemma {:induction false} OnAcceptedPeace(env: Env, w: World, recipients: seq<nat>, s: Session)
    requires env.cfg.leaseMs > 0 && Resting(w.coord, s) && OwnSessions(w.coord)
    ensures LeftInPeace(w, OnAccepted(env, w, recipients), s)
    decreases |recipients|
  {
    hide ClaimFor;
    hide LeftInPeace;
    QuietPeace(w, w, s);
    if recipients != [] {
      var u := recipients[0];
      if u in w.coord.active {
        var x := w.coord.active[u];
        var w1 := ClaimFor(env, w, x);
        ClaimPeace(env, w, x, s);
        ClaimKeepsSessions(env, w, x);
        PeaceRests(w, w1, s);
        OnAcceptedPeace(env, w1, recipients[1..], s);
        PeaceTrans(w, w1, OnAccepted(env, w1, recipients[1..]), s);
      } else {
        OnAcceptedPeace(env, w, recipients[1..], s);
      }
    }
  }

  lemma PeaceRests(w: World, w': World, s: Session)
    requires LeftInPeace(w, w', s)
    ensures Resting(w'.coord, s)
  {}

  lemma {:induction false} ClaimEachPeace(env: Env, w: World, sessions: seq<Session>, s: Session)
    requires env.cfg.leaseMs > 0 && Resting(w.coord, s)
    requires forall x :: x in sessions && x.user == s.user ==> x == s
    ensures LeftInPeace(w, ClaimEach(env, w, sessions), s)
    decreases |sessions|
  {
    hide ClaimFor;
    hide LeftInPeace;
    QuietPeace(w, w, s);
    if sessions != [] {
      var w1 := ClaimFor(env, w, sessions[0]);
      ClaimPeace(env, w, sessions[0], s);
      PeaceRests(w, w1, s);
      ClaimEachPeace(env, w1, sessions[1..], s);
      PeaceTrans(w, w1, ClaimEach(env, w1, sessions[1..]), s);
    }
  }

  lemma TickPeace(env: Env, w: World, s: Session)
    requires env.cfg.leaseMs > 0 && Resting(w.coord, s) && OwnSessions(w.coord)
    ensures LeftInPeace(w, Tick(env, w), s)
  {
    hide Tick;
    hide LeftInPeace;
    var w1, sessions := TickPrefix(env, w);
    QuietPeace(w, w1, s);
    ClaimEachPeace(env, w1, sessions, s);
    PeaceTrans(w, w1, ClaimEach(env, w1, sessions), s);
  }

  lemma AvailablePeace(env: Env, w: World, session: Session, s: Session)
    requires env.cfg.leaseMs > 0 && Resting(w.coord, s) && (session.user == s.user ==> session == s)
    ensures LeftInPeace(w, SessionAvailable(env, w, session), s)
  {
    hide LeftInPeace;
    hide FenceFrom;
    hide ClaimFor;
    QuietPeace(w, w, s);
    if !Outdated(w.coord, session) {
      var w1 := w.(coord := w.coord.(observed := w.coord.observed[session.user := session.generation]));
      FenceReleases(env, w1, session);
      var w2 := FenceFrom(env, w1, session, 0);
      var w3 := w2.(coord := w2.coord.(active := w2.coord.active[session.user := session]));
      QuietPeace(w, w3, s);
      ClaimPeace(env, w3, session, s);
      PeaceTrans(w, w3, ClaimFor(env, w3, session), s);
    }
  }

  lemma ClosedPeace(env: Env, w: World, session: Session, s: Session)
    requires env.cfg.leaseMs > 0 && Resting(w.coord, s) && OwnSessions(w.coord) && session != s
    ensures LeftInPeace(w, SessionClosed(env, w, session), s)
  {
    hide LeftInPeace;
    hide CloseFrom;
    hide ClaimFor;
    hide RowsReleased;
    var mine := session.user in w.coord.active && w.coord.active[session.user] == session;
    var w1 := w.(coord := w.coord.(paused := w.coord.paused - {session},
                                   active := if mine then w.coord.active - {session.user} else w.coord.active));
    CloseReleases(env, w1, session);
    var w2 := CloseFrom(env, w1, session, 0);
    QuietPeace(w, w2, s);
    if session.user in w1.coord.active {
      var x := w1.coord.active[session.user];
      ClaimPeace(env, w2, x, s);
      PeaceTrans(w, w2, ClaimFor(env, w2, x), s);
    }
  }

  lemma AckPeace(env: Env, w: World, acker: Session, id: nat, s: Session)
    requires env.cfg.leaseMs > 0 && Resting(w.coord, s)
    ensures LeftInPeace(w, Acknowledge(env, w, acker, id), s)
  {
    hide ClaimFor;
    hide IndexOf;
    hide Known;
    if AckResultOf(w, acker, id) == AckAcknowledged {
      var i := IndexOf(w.rows, Key(id, acker.user));
      ClaimPeace(env, AckRow(env, w, i), acker, s);
    }
  }

  /** The operations that may wake a resting session: its resume or close, another login of its user, a restart. */
  predicate Wakes(op: Op, s: Session) {
    match op
    case OpResume(session) => session == s
    case OpClosed(session) => session == s
    case OpAvailable(session) => session.user == s.user && session != s
    case OpRestart(_) => true
    case _ => false
  }

  lemma AvailableOwn(env: Env, w: World, session: Session)
    requires env.cfg.leaseMs > 0 && Inv(w)
    ensures OwnSessions(SessionAvailable(env, w, session).coord)
  {
    hide Ledger.Exact;
    SessionAvailableInv(env, w, session);
  }

  /**
    Once the sink has paused a user's active session, no operation attempts
    anything to that user and the session stays active and paused, until it resumes
    or closes, the user logs in anew, or the process restarts.
  */
  lemma PausedIsLeftInPeace(env: Env, w: World, op: Op, s: Session)
    requires Reachable(env, w) && Resting(w.coord, s) && !Wakes(op, s)
    ensures LeftInPeace(w, Step(env, w, op), s)
  {
    hide Deliveries;
    hide Ledger.Exact;
    hide LeftInPeace;
    hide OwnSessions;
    hide ClaimFor;
    hide OnAccepted;
    hide Tick;
    hide SessionAvailable;
    hide SessionClosed;
    hide Acknowledge;
    hide Enrol;
    ReachableInv(env, w);
    hide Reachable;
    InvOwnSessions(w);
    QuietPeace(w, w, s);
    match op
    case OpAccept(sender, cmd) =>
      var k := Ledger.AcceptKey(sender.user, cmd.clientId);
      if k in w.ledger.accepted {
        OnAcceptedPeace(env, w, RecipientsFor(w.ledger.accepted[k].command), s);
      } else {
        var w1 := Enrol(env, w, sender.user, cmd);
        EnrolQuiet(env, w, sender.user, cmd);
        QuietPeace(w, w1, s);
        OnAcceptedPeace(env, w1, RecipientsFor(cmd), s);
        PeaceTrans(w, w1, OnAccepted(env, w1, RecipientsFor(cmd)), s);
      }
    case OpAcknowledge(acker, id) => AckPeace(env, w, acker, id, s);
    case OpAvailable(session) =>
      var w1 := SessionAvailable(env, w, session);
      AvailablePeace(env, w, session, s);
      AvailableOwn(env, w, session);
      PeaceRests(w, w1, s);
      TickPeace(env, w1, s);
      PeaceTrans(w, w1, Tick(env, w1), s);
    case OpClosed(session) => ClosedPeace(env, w, session, s);
    case OpResume(session) => ResumePeace(env, w, session, s);
    case OpWakeup(recipients) => OnAcceptedPeace(env, w, recipients, s);
    case OpTick => TickPeace(env, w, s);
    case OpRestart(boot) =>
  }

  lemma ResumePeace(env: Env, w: World, session: Session, s: Session)
    requires env.cfg.leaseMs > 0 && Resting(w.coord, s) && session != s
    ensures LeftInPeace(w, Resume(env, w, session), s)
  {
    hide ClaimFor;
    hide LeftInPeace;
    QuietPeace(w, w, s);
    if session.user in w.coord.active && w.coord.active[session.user] == session && !Outdated(w.coord, session) {
      var w1 := w.(coord := w.coord.(paused := w.coord.paused - {session}));
      QuietPeace(w, w1, s);
      ClaimPeace(env, w1, session, s);
      PeaceTrans(w, w1, ClaimFor(env, w1, session), s);
    }
  }
}
