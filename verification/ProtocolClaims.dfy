/**
  What one claim changes, exactly: which rows, how, whom it attempts to reach, and
  when it pauses the session.
*/
module ProtocolClaims {
  import opened Domain
  import opened Protocol
  import opened ProtocolSafety
  import Ledger

  // ---- Rows ----

  /** Waiting, or in flight under a lease that has run out. */
  predicate Free(d: Delivery, now: int) {
    d.state == Pending || (d.state == InFlight && d.leaseUntil <= now)
  }

  /** The row as an admission at this instant leaves it: one attempt more, sent now, leased from now, or done. */
  predicate Admitted(cfg: Config, boot: nat, session: Session, d: Delivery, d': Delivery, now: int) {
    && d'.Id() == d.Id() && d'.conversation == d.conversation && d'.expiresAt == d.expiresAt
    && d'.attempts == d.attempts + 1 && d'.lastSentAt == now
    && d'.leaseOwner == session && d'.leaseBoot == boot && d'.leaseUntil == now + cfg.leaseMs
    && (d'.state == InFlight || (d'.state == Acknowledged && d'.acknowledgedAt == now))
  }

  /** A row a claim may change, and how. */
  predicate Touched(cfg: Config, boot: nat, session: Session, d: Delivery, d': Delivery, now: int) {
    d' == d || (d.recipient == session.user && Free(d, now) && Admitted(cfg, boot, session, d, d', now))
  }

  ghost predicate ClaimedRows(cfg: Config, w: World, w': World, session: Session, now: int) {
    && |w'.rows| == |w.rows| && w'.ledger == w.ledger && w'.cleaned == w.cleaned && w'.acks == w.acks
    && w'.coord.boot == w.coord.boot && w'.coord.active == w.coord.active && w'.coord.observed == w.coord.observed
    && (forall j :: 0 <= j < |w.rows| ==>
          Touched(cfg, w.coord.boot, session, w.rows[j], w'.rows[j], now))
  }

  lemma TouchedTwice(cfg: Config, boot: nat, session: Session, a: Delivery, b: Delivery, c: Delivery, now: int)
    requires cfg.leaseMs > 0 && Touched(cfg, boot, session, a, b, now) && Touched(cfg, boot, session, b, c, now)
    ensures Touched(cfg, boot, session, a, c, now)
  {}

  lemma ClaimedRowsTrans(cfg: Config, a: World, b: World, c: World, session: Session, now: int)
    requires cfg.leaseMs > 0 && ClaimedRows(cfg, a, b, session, now) && ClaimedRows(cfg, b, c, session, now)
    ensures ClaimedRows(cfg, a, c, session, now)
  {
    hide Touched;
    forall j | 0 <= j < |a.rows| ensures Touched(cfg, a.coord.boot, session, a.rows[j], c.rows[j], now) {
      TouchedTwice(cfg, a.coord.boot, session, a.rows[j], b.rows[j], c.rows[j], now);
    }
  }

  lemma ClaimedRowsSelf(cfg: Config, w: World, session: Session, now: int)
    ensures ClaimedRows(cfg, w, w, session, now)
  {}

  lemma TriedRows(env: Env, w: World, session: Session, i: nat, now: int)
    requires i < |w.rows| && w.rows[i].messageId in w.ledger.messages
    requires w.rows[i].recipient == session.user && Free(w.rows[i], now)
    ensures ClaimedRows(env.cfg, w, Tried(env, w, session, i, now), session, now)
  {
    hide ClaimMetrics;
  }

  // ---- The log and the pause ----

  ghost predicate NoPause(log: seq<Attempt>, from: nat) {
    forall e :: from <= e < |log| ==> log[e].answer != Paused
  }

  /** The log grew by attempts to this user only. */
  ghost predicate LogTo(log: seq<Attempt>, log': seq<Attempt>, user: nat) {
    log <= log' && forall e :: |log| <= e < |log'| ==> log'[e].recipient == user
  }

  /** The sink paused the session with the last attempt and with none before, or not at all. */
  ghost predicate ClaimedLog(w: World, w': World, session: Session, stopped: bool) {
    && LogTo(w.log, w'.log, session.user)
    && (if stopped
        then |w.log| < |w'.log| && w'.log[|w'.log| - 1].answer == Paused && NoPause(w'.log[..|w'.log| - 1], |w.log|)
             && w'.coord.paused == w.coord.paused + {session}
        else NoPause(w'.log, |w.log|) && w'.coord.paused == w.coord.paused)
  }

  lemma ClaimedLogTrans(a: World, b: World, c: World, session: Session, stopped: bool)
    requires ClaimedLog(a, b, session, false) && ClaimedLog(b, c, session, stopped)
    ensures ClaimedLog(a, c, session, stopped)
  {
    forall e | |a.log| <= e < |c.log|
      ensures c.log[e].recipient == session.user && (e < |b.log| ==> c.log[e] == b.log[e])
    {
      if e < |b.log| {
        assert c.log[e] == b.log[e];
      }
    }
  }

  lemma ClaimedLogSelf(w: World, session: Session)
    ensures ClaimedLog(w, w, session, false)
  {}

  lemma TriedLog(env: Env, w: World, session: Session, i: nat, now: int)
    requires i < |w.rows| && w.rows[i].messageId in w.ledger.messages && w.rows[i].recipient == session.user
    ensures ClaimedLog(w, Tried(env, w, session, i, now), session, env.answers(|w.log|) == Paused)
  {
    hide ClaimMetrics;
    hide ClaimedRow;
    var w' := Tried(env, w, session, i, now);
    assert w'.log[..|w'.log| - 1] == w.log;
  }

  // ---- Whole claims ----

  ghost predicate ClaimEffect(cfg: Config, w: World, w': World, session: Session, now: int, stopped: bool) {
    ClaimedRows(cfg, w, w', session, now) && ClaimedLog(w, w', session, stopped)
  }

  lemma ClaimEffectTrans(cfg: Config, a: World, b: World, c: World, session: Session, now: int, stopped: bool)
    requires cfg.leaseMs > 0 && ClaimEffect(cfg, a, b, session, now, false)
    requires ClaimEffect(cfg, b, c, session, now, stopped)
    ensures ClaimEffect(cfg, a, c, session, now, stopped)
  {
    hide ClaimedRows;
    hide ClaimedLog;
    ClaimedRowsTrans(cfg, a, b, c, session, now);
    ClaimedLogTrans(a, b, c, session, stopped);
  }

  lemma ClaimEffectSelf(cfg: Config, w: World, session: Session, now: int)
    ensures ClaimEffect(cfg, w, w, session, now, false)
  {
    ClaimedRowsSelf(cfg, w, session, now);
    ClaimedLogSelf(w, session);
  }

  lemma TriedClaims(env: Env, w: World, session: Session, conv: nat, h: nat, now: int)
    requires h < |w.rows| && Candidate(w.rows[h], session.user, conv) && Claimable(w.rows[h], now)
    requires w.rows[h].messageId in w.ledger.messages
    ensures ClaimEffect(env.cfg, w, Tried(env, w, session, h, now), session, now, env.answers(|w.log|) == Paused)
  {
    hide Tried;
    hide ClaimedRows;
    hide ClaimedLog;
    TriedRows(env, w, session, h, now);
    TriedLog(env, w, session, h, now);
  }

  lemma {:induction false} ClaimConversationClaims(env: Env, w: World, session: Session, conv: nat, now: int)
    requires env.cfg.leaseMs > 0
    ensures var (w', stopped) := ClaimConversation(env, w, session, conv, now);
      ClaimEffect(env.cfg, w, w', session, now, stopped)
    decreases |ClaimableIn(w.rows, session.user, conv, now)|
  {
    hide Tried;
    hide ClaimEffect;
    var h := Head(w, session.user, conv);
    ClaimEffectSelf(env.cfg, w, session, now);
    if h >= 0 && Claimable(w.rows[h], now) && w.rows[h].messageId in w.ledger.messages {
      TriedClaims(env, w, session, conv, h, now);
      if env.answers(|w.log|) == Accepted {
        var w1 := Tried(env, w, session, h, now);
        TriedShrinks(env, w, session, h, now, conv);
        ClaimConversationClaims(env, w1, session, conv, now);
        var (w', stopped) := ClaimConversation(env, w1, session, conv, now);
        ClaimEffectTrans(env.cfg, w, w1, w', session, now, stopped);
      }
    }
  }

  lemma {:induction false} ClaimConversationsClaims(env: Env, w: World, session: Session, convs: seq<nat>, now: int)
    requires env.cfg.leaseMs > 0
    ensures var w' := ClaimConversations(env, w, session, convs, now);
      exists stopped :: ClaimEffect(env.cfg, w, w', session, now, stopped)
    decreases |convs|
  {
    hide ClaimConversation;
    hide ClaimEffect;
    if convs == [] {
      ClaimEffectSelf(env.cfg, w, session, now);
      assert ClaimEffect(env.cfg, w, ClaimConversations(env, w, session, convs, now), session, now, false);
    } else {
      var (w1, stopped) := ClaimConversation(env, w, session, convs[0], now);
      ClaimConversationClaims(env, w, session, convs[0], now);
      if stopped {
        assert ClaimEffect(env.cfg, w, ClaimConversations(env, w, session, convs, now), session, now, true);
      } else {
        ClaimConversationsClaims(env, w1, session, convs[1..], now);
        var w' := ClaimConversations(env, w1, session, convs[1..], now);
        var b :| ClaimEffect(env.cfg, w1, w', session, now, b);
        ClaimEffectTrans(env.cfg, w, w1, w', session, now, b);
        assert w' == ClaimConversations(env, w, session, convs, now);
        assert ClaimEffect(env.cfg, w, w', session, now, b);
      }
    }
  }

  /**
    A claim, exactly as far as it reaches: for a paused session it does nothing.
    Otherwise it takes one reading of the clock, attempts only this user's
    deliveries, admits only rows that were waiting or whose lease had run out by
    then, leaves every other row as it is, and pauses the session exactly if the
    sink's last answer was Paused.
  */
  lemma ClaimExactly(env: Env, w: World, session: Session)
    requires env.cfg.leaseMs > 0
    ensures var w', now := ClaimFor(env, w, session), env.clock(w.clockReads);
      && (session in w.coord.paused ==> w' == w)
      && (session !in w.coord.paused ==>
            w'.clockReads == w.clockReads + 1
            && ClaimEffect(env.cfg, w, w', session, now, session in w'.coord.paused))
  {
    hide ClaimConversations;
    if session !in w.coord.paused {
      var now, w0 := env.clock(w.clockReads), w.(clockReads := w.clockReads + 1);
      var convs := OpenConversations(w.rows, session.user, |w.rows|);
      ClaimConversationsClaims(env, w0, session, convs, now);
      ConversationsClock(env, w0, session, convs, now);
      var w' := ClaimConversations(env, w0, session, convs, now);
      var b :| ClaimEffect(env.cfg, w0, w', session, now, b);
      assert b == (session in w'.coord.paused);
    }
  }

  lemma {:induction false} ConversationClock(env: Env, w: World, session: Session, conv: nat, now: int)
    requires env.cfg.leaseMs > 0
    ensures ClaimConversation(env, w, session, conv, now).0.clockReads == w.clockReads
    decreases |ClaimableIn(w.rows, session.user, conv, now)|
  {
    hide ClaimMetrics;
    hide ClaimedRow;
    var h := Head(w, session.user, conv);
    if && h >= 0 && Claimable(w.rows[h], now) && w.rows[h].messageId in w.ledger.messages
       && env.answers(|w.log|) == Accepted {
      TriedShrinks(env, w, session, h, now, conv);
      ConversationClock(env, Tried(env, w, session, h, now), session, conv, now);
    }
  }

  lemma {:induction false} ConversationsClock(env: Env, w: World, session: Session, convs: seq<nat>, now: int)
    requires env.cfg.leaseMs > 0
    ensures ClaimConversations(env, w, session, convs, now).clockReads == w.clockReads
    decreases |convs|
  {
    hide ClaimConversation;
    if convs != [] {
      ConversationClock(env, w, session, convs[0], now);
      ConversationsClock(env, ClaimConversation(env, w, session, convs[0], now).0, session, convs[1..], now);
    }
  }

  // ---- The deadlines noted ----

  /** The deadlines noted meanwhile are those of the rows admitted and left in flight. */
  ghost predicate Noted(w: World, w': World) {
    && w.coord.tickNexts <= w'.coord.tickNexts && |w'.rows| == |w.rows|
    && (forall j :: 0 <= j < |w.rows| && w'.rows[j] != w.rows[j] && w'.rows[j].state == InFlight ==>
          w'.rows[j].nextAttemptAt in w'.coord.tickNexts[|w.coord.tickNexts|..])
    && (forall t :: t in w'.coord.tickNexts[|w.coord.tickNexts|..] ==> NotedFor(w, w', t))
  }

  ghost predicate NotedFor(w: World, w': World, t: int) {
    exists j :: 0 <= j < |w.rows| && j < |w'.rows| && w'.rows[j] != w.rows[j] && w'.rows[j].state == InFlight
      && w'.rows[j].nextAttemptAt == t
  }

  lemma NotedTrans(cfg: Config, a: World, b: World, c: World, session: Session, now: int)
    requires cfg.leaseMs > 0 && ClaimedRows(cfg, a, b, session, now) && ClaimedRows(cfg, b, c, session, now)
    requires Noted(a, b) && Noted(b, c)
    ensures Noted(a, c)
  {
    var x, y, z := a.coord.tickNexts, b.coord.tickNexts, c.coord.tickNexts;
    assert z[|x|..] == y[|x|..] + z[|y|..];
    forall j | 0 <= j < |a.rows|
      ensures b.rows[j] != a.rows[j] ==> c.rows[j] == b.rows[j]
      ensures c.rows[j] != a.rows[j] <==> b.rows[j] != a.rows[j] || c.rows[j] != b.rows[j]
    {
      TouchedOnce(cfg, a.coord.boot, session, a.rows[j], b.rows[j], c.rows[j], now);
    }
    forall t | t in z[|x|..] ensures NotedFor(a, c, t) {
      if t in y[|x|..] {
        assert NotedFor(a, b, t);
        var j :| 0 <= j < |a.rows| && b.rows[j] != a.rows[j] && b.rows[j].state == InFlight
                 && b.rows[j].nextAttemptAt == t;
        assert c.rows[j] == b.rows[j];
      } else {
        assert NotedFor(b, c, t);
        var j :| 0 <= j < |b.rows| && c.rows[j] != b.rows[j] && c.rows[j].state == InFlight
                 && c.rows[j].nextAttemptAt == t;
        assert c.rows[j] != a.rows[j];
      }
    }
  }

  lemma TouchedOnce(cfg: Config, boot: nat, session: Session, a: Delivery, b: Delivery, c: Delivery, now: int)
    requires cfg.leaseMs > 0 && Touched(cfg, boot, session, a, b, now) && Touched(cfg, boot, session, b, c, now)
    ensures b != a ==> c == b
    ensures c != a <==> b != a || c != b
  {}

  lemma TriedNoted(env: Env, w: World, session: Session, i: nat, now: int)
    requires i < |w.rows| && w.rows[i].messageId in w.ledger.messages
    ensures Noted(w, Tried(env, w, session, i, now))
  {
    hide ClaimMetrics;
    var w' := Tried(env, w, session, i, now);
    if env.answers(|w.log|) == Accepted {
      assert w'.rows[i].attempts == w.rows[i].attempts + 1;
      var d := ClaimedRow(env, w, session, i, now);
      if d.state == InFlight {
        assert w'.coord.tickNexts[|w.coord.tickNexts|..] == [d.nextAttemptAt];
        assert NotedFor(w, w', d.nextAttemptAt);
      }
    }
  }

  lemma {:induction false} ConversationNoted(env: Env, w: World, session: Session, conv: nat, now: int)
    requires env.cfg.leaseMs > 0
    ensures Noted(w, ClaimConversation(env, w, session, conv, now).0)
    decreases |ClaimableIn(w.rows, session.user, conv, now)|
  {
    hide Tried;
    hide Noted;
    hide ClaimedRows;
    NotedSelf(w);
    var h := Head(w, session.user, conv);
    if h >= 0 && Claimable(w.rows[h], now) && w.rows[h].messageId in w.ledger.messages {
      TriedNoted(env, w, session, h, now);
      if env.answers(|w.log|) == Accepted {
        var w1 := Tried(env, w, session, h, now);
        TriedShrinks(env, w, session, h, now, conv);
        ConversationNoted(env, w1, session, conv, now);
        TriedRows(env, w, session, h, now);
        ClaimConversationClaims(env, w1, session, conv, now);
        NotedTrans(env.cfg, w, w1, ClaimConversation(env, w1, session, conv, now).0, session, now);
      }
    }
  }

  lemma NotedSelf(w: World)
    ensures Noted(w, w)
  {}

  lemma {:induction false} ConversationsNoted(env: Env, w: World, session: Session, convs: seq<nat>, now: int)
    requires env.cfg.leaseMs > 0
    ensures Noted(w, ClaimConversations(env, w, session, convs, now))
    decreases |convs|
  {
    hide ClaimConversation;
    hide Noted;
    hide ClaimedRows;
    hide ClaimedLog;
    NotedSelf(w);
    if convs != [] {
      var (w1, stopped) := ClaimConversation(env, w, session, convs[0], now);
      ConversationNoted(env, w, session, convs[0], now);
      ClaimConversationClaims(env, w, session, convs[0], now);
      if !stopped {
        ConversationsNoted(env, w1, session, convs[1..], now);
        ClaimConversationsClaims(env, w1, session, convs[1..], now);
        NotedTrans(env.cfg, w, w1, ClaimConversations(env, w1, session, convs[1..], now), session, now);
      }
    }
  }

  /** A claim notes the deadline of every row it leaves in flight, and no other, for the scheduler's next wake. */
  lemma ClaimNotes(env: Env, w: World, session: Session)
    requires env.cfg.leaseMs > 0
    ensures Noted(w, ClaimFor(env, w, session))
  {
    hide ClaimConversations;
    hide OpenConversations;
    if session !in w.coord.paused {
      ConversationsNoted(env, w.(clockReads := w.clockReads + 1), session,
                         OpenConversations(w.rows, session.user, |w.rows|), env.clock(w.clockReads));
      var w0 := w.(clockReads := w.clockReads + 1);
      var w' := ClaimFor(env, w, session);
      forall t | t in w'.coord.tickNexts[|w.coord.tickNexts|..] ensures NotedFor(w, w', t) {
        assert NotedFor(w0, w', t);
      }
    }
  }
}
