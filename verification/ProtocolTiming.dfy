/**
  Times over every run: redeliveries keep their distance, what rows say of time
  are clock readings, and cleanup waits out each row's own retention.
*/
module ProtocolTiming {
  import opened Domain
  import opened Protocol
  import Ledger
  import RetryTiming

  /** One of the first `taken` readings of the clock. */
  ghost predicate IsReading(env: Env, taken: nat, t: int) {
    exists n: nat :: n < taken && env.clock(n) == t
  }

  /** Its next attempt comes the delay of its attempt count after its last send, under some jitter. */
  ghost predicate Scheduled(env: Env, d: Delivery) {
    exists e: nat :: d.nextAttemptAt == d.lastSentAt + RetryTiming.RetryDelay(env.cfg, d.attempts, env.jitter(e))
  }

  /**
    A row once admitted was sent at a reading and is scheduled from there, at least
    the ACK timeout later; its lease, while it is in flight, runs from that send; it
    was acknowledged at a reading, and its deadline is the message retention after
    a reading.
  */
  ghost predicate TimelyRow(env: Env, taken: nat, d: Delivery) {
    && (d.attempts > 0 ==> d.nextAttemptAt - d.lastSentAt >= env.cfg.ackTimeoutMs)
    && (d.attempts > 0 ==> IsReading(env, taken, d.lastSentAt) && Scheduled(env, d))
    && (d.state == InFlight ==> d.attempts > 0 && d.leaseUntil == d.lastSentAt + env.cfg.leaseMs)
    && (d.state == Acknowledged ==> IsReading(env, taken, d.acknowledgedAt))
    && IsReading(env, taken, d.expiresAt - env.cfg.messageRetentionMs)
  }

  ghost predicate Timed(env: Env, rows: seq<Delivery>, taken: nat) {
    forall d :: d in rows ==> TimelyRow(env, taken, d)
  }

  /** Nothing was cleaned up between the two, and the clock was not set back to an earlier reading. */
  predicate Onward(w: World, w': World) {
    w'.cleaned == w.cleaned && w.clockReads <= w'.clockReads
  }

  lemma TimelyLater(env: Env, a: nat, b: nat, d: Delivery)
    requires a <= b && TimelyRow(env, a, d)
    ensures TimelyRow(env, b, d)
  {}

  lemma TimedLater(env: Env, rows: seq<Delivery>, a: nat, b: nat)
    requires a <= b && Timed(env, rows, a)
    ensures Timed(env, rows, b)
  {
    hide TimelyRow;
    forall d | d in rows ensures TimelyRow(env, b, d) {
      TimelyLater(env, a, b, d);
    }
  }

  lemma TimedUpdate(env: Env, rows: seq<Delivery>, taken: nat, i: nat, d: Delivery)
    requires Timed(env, rows, taken) && i < |rows| && TimelyRow(env, taken, d)
    ensures Timed(env, rows[i := d], taken)
  {
    hide TimelyRow;
    assert forall x :: x in rows[i := d] ==> x == d || x in rows;
  }

  lemma TimedAt(env: Env, rows: seq<Delivery>, taken: nat, i: nat)
    requires Timed(env, rows, taken) && i < |rows|
    ensures TimelyRow(env, taken, rows[i])
  {
    assert rows[i] in rows;
  }

  // ---- Claims ----

  lemma ClaimedTimely(env: Env, w: World, session: Session, i: nat, now: int)
    requires i < |w.rows| && TimelyRow(env, w.clockReads, w.rows[i]) && IsReading(env, w.clockReads, now)
    ensures TimelyRow(env, w.clockReads, ClaimedRow(env, w, session, i, now))
  {
    hide IsReading;
  }

  /** The admission itself sets the distance. */
  lemma TriedTimed(env: Env, w: World, session: Session, i: nat, now: int)
    requires i < |w.rows| && w.rows[i].messageId in w.ledger.messages
    requires Timed(env, w.rows, w.clockReads) && IsReading(env, w.clockReads, now)
    ensures var w' := Tried(env, w, session, i, now);
      Timed(env, w'.rows, w.clockReads) && w'.clockReads == w.clockReads && w'.cleaned == w.cleaned
  {
    hide Timed;
    hide TimelyRow;
    hide ClaimMetrics;
    hide ClaimedRow;
    TimedAt(env, w.rows, w.clockReads, i);
    ClaimedTimely(env, w, session, i, now);
    TimedUpdate(env, w.rows, w.clockReads, i, ClaimedRow(env, w, session, i, now));
  }

  lemma {:induction false} ClaimConversationTimed(env: Env, w: World, session: Session, conv: nat, now: int)
    requires env.cfg.leaseMs > 0 && Timed(env, w.rows, w.clockReads) && IsReading(env, w.clockReads, now)
    ensures var w' := ClaimConversation(env, w, session, conv, now).0;
      Timed(env, w'.rows, w.clockReads) && w'.clockReads == w.clockReads && w'.cleaned == w.cleaned
    decreases |ClaimableIn(w.rows, session.user, conv, now)|
  {
    hide Timed;
    hide Tried;
    var h := Head(w, session.user, conv);
    if h >= 0 && Claimable(w.rows[h], now) && w.rows[h].messageId in w.ledger.messages {
      HeadIsCandidate(w, session.user, conv);
      TriedTimed(env, w, session, h, now);
      if env.answers(|w.log|) == Accepted {
        TriedShrinks(env, w, session, h, now, conv);
        ClaimConversationTimed(env, Tried(env, w, session, h, now), session, conv, now);
      }
    }
  }

  lemma HeadIsCandidate(w: World, user: nat, conv: nat)
    requires Head(w, user, conv) >= 0
    ensures Candidate(w.rows[Head(w, user, conv)], user, conv)
  {}

  lemma {:induction false} ClaimConversationsTimed(env: Env, w: World, session: Session, convs: seq<nat>, now: int)
    requires env.cfg.leaseMs > 0 && Timed(env, w.rows, w.clockReads) && IsReading(env, w.clockReads, now)
    ensures var w' := ClaimConversations(env, w, session, convs, now);
      Timed(env, w'.rows, w'.clockReads) && Onward(w, w')
    decreases |convs|
  {
    hide Timed;
    hide ClaimConversation;
    if convs != [] {
      ClaimConversationTimed(env, w, session, convs[0], now);
      ClaimConversationsTimed(env, ClaimConversation(env, w, session, convs[0], now).0, session, convs[1..], now);
    }
  }

  lemma ClaimForTimed(env: Env, w: World, session: Session)
    requires env.cfg.leaseMs > 0 && Timed(env, w.rows, w.clockReads)
    ensures var w' := ClaimFor(env, w, session); Timed(env, w'.rows, w'.clockReads) && Onward(w, w')
  {
    hide Timed;
    hide ClaimConversations;
    TimedLater(env, w.rows, w.clockReads, w.clockReads + 1);
    ClaimConversationsTimed(env, w.(clockReads := w.clockReads + 1), session,
                            OpenConversations(w.rows, session.user, |w.rows|), env.clock(w.clockReads));
  }

  lemma {:induction false} OnAcceptedTimed(env: Env, w: World, recipients: seq<nat>)
    requires env.cfg.leaseMs > 0 && Timed(env, w.rows, w.clockReads)
    ensures var w' := OnAccepted(env, w, recipients); Timed(env, w'.rows, w'.clockReads) && Onward(w, w')
    decreases |recipients|
  {
    hide Timed;
    hide ClaimFor;
    if recipients != [] {
      if recipients[0] in w.coord.active {
        ClaimForTimed(env, w, w.coord.active[recipients[0]]);
        OnAcceptedTimed(env, ClaimFor(env, w, w.coord.active[recipients[0]]), recipients[1..]);
      } else {
        OnAcceptedTimed(env, w, recipients[1..]);
      }
    }
  }

  lemma {:induction false} ClaimEachTimed(env: Env, w: World, sessions: seq<Session>)
    requires env.cfg.leaseMs > 0 && Timed(env, w.rows, w.clockReads)
    ensures var w' := ClaimEach(env, w, sessions); Timed(env, w'.rows, w'.clockReads) && Onward(w, w')
    decreases |sessions|
  {
    hide Timed;
    hide ClaimFor;
    if sessions != [] {
      ClaimForTimed(env, w, sessions[0]);
      ClaimEachTimed(env, ClaimFor(env, w, sessions[0]), sessions[1..]);
    }
  }

  // ---- Leases taken back ----

  lemma ReleaseTimed(env: Env, w: World, i: nat, d: Delivery)
    requires i < |w.rows| && Timed(env, w.rows, w.clockReads) && TimelyRow(env, w.clockReads, d)
    ensures var w' := ReleaseRow(env, w, i, d);
      Timed(env, w'.rows, w.clockReads) && Onward(w, w') && w'.clockReads == w.clockReads
  {
    hide Timed;
    hide IsReading;
    TimedUpdate(env, w.rows, w.clockReads, i, Unleased(d));
  }

  lemma FilledTimely(env: Env, w: World, i: nat)
    requires i < |w.rows| && Timed(env, w.rows, w.clockReads)
    ensures TimelyRow(env, w.clockReads, Filled(w.ledger.messages, w.rows[i]))
  {
    hide IsReading;
    TimedAt(env, w.rows, w.clockReads, i);
  }

  lemma {:induction false} FenceTimed(env: Env, w: World, session: Session, i: nat)
    requires i <= |w.rows| && Timed(env, w.rows, w.clockReads)
    ensures var w' := FenceFrom(env, w, session, i); Timed(env, w'.rows, w'.clockReads) && Onward(w, w')
    decreases |w.rows| - i
  {
    hide Timed;
    hide TimelyRow;
    if i < |w.rows| {
      var d := Filled(w.ledger.messages, w.rows[i]);
      FilledTimely(env, w, i);
      ReleaseTimed(env, w, i, d);
      FenceTimed(env, ReleaseRow(env, w, i, d), session, i + 1);
      FenceTimed(env, w, session, i + 1);
    }
  }

  lemma {:induction false} CloseTimed(env: Env, w: World, session: Session, i: nat)
    requires i <= |w.rows| && Timed(env, w.rows, w.clockReads)
    ensures var w' := CloseFrom(env, w, session, i); Timed(env, w'.rows, w'.clockReads) && Onward(w, w')
    decreases |w.rows| - i
  {
    hide Timed;
    hide TimelyRow;
    if i < |w.rows| {
      var d := Filled(w.ledger.messages, w.rows[i]);
      FilledTimely(env, w, i);
      ReleaseTimed(env, w, i, d);
      CloseTimed(env, ReleaseRow(env, w, i, d), session, i + 1);
      CloseTimed(env, w, session, i + 1);
    }
  }

  lemma {:induction false} RollBackTimed(env: Env, w: World, due: seq<nat>)
    requires Timed(env, w.rows, w.clockReads) && forall k :: 0 <= k < |due| ==> due[k] < |w.rows|
    ensures var w' := RollBack(env, w, due); Timed(env, w'.rows, w'.clockReads) && Onward(w, w')
    decreases |due|
  {
    hide Timed;
    hide TimelyRow;
    if due != [] {
      TimedAt(env, w.rows, w.clockReads, due[0]);
      ReleaseTimed(env, w, due[0], w.rows[due[0]]);
      RollBackTimed(env, ReleaseRow(env, w, due[0], w.rows[due[0]]), due[1..]);
      RollBackTimed(env, w, due[1..]);
    }
  }

  // ---- Expiry, cleanup, enrolment ----

  lemma ExpiredTimely(env: Env, taken: nat, d: Delivery)
    requires TimelyRow(env, taken, d)
    ensures TimelyRow(env, taken, d.(state := Expired))
  {
    hide IsReading;
  }

  lemma {:induction false} ExpireTimed(env: Env, rows: seq<Delivery>, i: nat, now: int, limit: nat, taken: nat)
    requires i <= |rows| && Timed(env, rows, taken)
    ensures Timed(env, ExpireFrom(rows, i, now, limit).0, taken)
    decreases |rows| - i
  {
    hide Timed;
    hide TimelyRow;
    if i < |rows| && limit > 0 {
      TimedAt(env, rows, taken, i);
      ExpiredTimely(env, taken, rows[i]);
      TimedUpdate(env, rows, taken, i, rows[i].(state := Expired));
      ExpireTimed(env, rows[i := rows[i].(state := Expired)], i + 1, now, limit - 1, taken);
      ExpireTimed(env, rows, i + 1, now, limit, taken);
    }
  }

  /** What a removal says is so: a row of the table, past one of the two thresholds. */
  ghost predicate RemovedFrom(rows: seq<Delivery>, ackedBefore: int, expiredBefore: int, r: Removal) {
    && r.row in rows && r.ackedBefore == ackedBefore && r.expiredBefore == expiredBefore
    && (AckedPast(r.row, ackedBefore) || ExpiredPast(r.row, expiredBefore))
  }

  lemma {:induction false} CleanRemoves(rows: seq<Delivery>, i: nat, ackedBefore: int, expiredBefore: int, a: nat,
                                        e: nat)
    requires i <= |rows|
    ensures var r := CleanFrom(rows, i, ackedBefore, expiredBefore, a, e);
      && (forall d :: d in r.0 ==> d in rows)
      && (forall g :: g in r.1 ==> RemovedFrom(rows, ackedBefore, expiredBefore, g))
    decreases |rows| - i
  {
    if i < |rows| {
      if (AckedPast(rows[i], ackedBefore) && a > 0) || (ExpiredPast(rows[i], expiredBefore) && e > 0) {
        var acked, less := AckedPast(rows[i], ackedBefore) && a > 0, rows[..i] + rows[i + 1..];
        var a', e' := if acked then a - 1 else a, if acked then e else e - 1;
        CleanRemoves(less, i, ackedBefore, expiredBefore, a', e');
        assert forall d :: d in less ==> d in rows;
        var first := Removal(rows[i], ackedBefore, expiredBefore);
        var rest := CleanFrom(less, i, ackedBefore, expiredBefore, a', e').1;
        var gone := [first] + rest;
        assert CleanFrom(rows, i, ackedBefore, expiredBefore, a, e).1 == gone;
        forall g | g in gone ensures RemovedFrom(rows, ackedBefore, expiredBefore, g) {
          assert rows[i] in rows;
          assert g == first || g in rest;
          assert g in rest ==> RemovedFrom(less, ackedBefore, expiredBefore, g);
        }
      } else {
        assert CleanFrom(rows, i, ackedBefore, expiredBefore, a, e)
            == CleanFrom(rows, i + 1, ackedBefore, expiredBefore, a, e);
        CleanRemoves(rows, i + 1, ackedBefore, expiredBefore, a, e);
      }
    }
  }

  lemma {:induction false} InsertRowTimed(env: Env, rows: seq<Delivery>, d: Delivery, taken: nat)
    requires Timed(env, rows, taken) && TimelyRow(env, taken, d)
    ensures Timed(env, InsertRow(rows, d), taken)
  {
    hide TimelyRow;
    if rows != [] {
      assert forall x :: x in rows[1..] ==> x in rows;
      InsertRowTimed(env, rows[1..], d, taken);
    }
  }

  lemma {:induction false} InsertRowsTimed(env: Env, rows: seq<Delivery>, m: Message, recipients: seq<nat>,
                                           expiresAt: int, taken: nat)
    requires Timed(env, rows, taken) && IsReading(env, taken, expiresAt - env.cfg.messageRetentionMs)
    ensures Timed(env, InsertRows(rows, m, recipients, expiresAt), taken)
    decreases |recipients|
  {
    hide Timed;
    hide InsertRow;
    hide IsReading;
    if recipients != [] {
      InsertRowTimed(env, rows, NewRow(m, recipients[0], expiresAt), taken);
      InsertRowsTimed(env, InsertRow(rows, NewRow(m, recipients[0], expiresAt)), m, recipients[1..], expiresAt, taken);
    }
  }

  // ---- Retention ----

  /** At the n-th reading the row had been acknowledged, or expired, for at least the retention of its kind. */
  ghost predicate PastRetention(env: Env, row: Delivery, n: nat) {
    || (row.state == Acknowledged && IsReading(env, n, row.acknowledgedAt)
        && row.acknowledgedAt + env.cfg.ackedRetentionMs <= env.clock(n))
    || (row.state == Expired && row.expiresAt + env.cfg.expiredRetentionMs <= env.clock(n))
  }

  /** The removal was made by the thresholds of some reading, and the row was past its retention then. */
  ghost predicate RemovedAt(env: Env, n: nat, r: Removal) {
    && r.ackedBefore == env.clock(n) - env.cfg.ackedRetentionMs
    && r.expiredBefore == env.clock(n) - env.cfg.expiredRetentionMs
    && PastRetention(env, r.row, n)
  }

  ghost predicate DatedRemoval(env: Env, taken: nat, r: Removal) {
    exists n: nat :: n < taken && RemovedAt(env, n, r)
  }

  ghost predicate Dated(env: Env, cleaned: seq<Removal>, taken: nat) {
    forall r :: 0 <= r < |cleaned| ==> DatedRemoval(env, taken, cleaned[r])
  }

  lemma DatedLater(env: Env, cleaned: seq<Removal>, a: nat, b: nat)
    requires a <= b && Dated(env, cleaned, a)
    ensures Dated(env, cleaned, b)
  {
    forall r | 0 <= r < |cleaned| ensures DatedRemoval(env, b, cleaned[r]) {
      var n: nat :| n < a && RemovedAt(env, n, cleaned[r]);
    }
  }

  lemma DatedRow(env: Env, rows: seq<Delivery>, n: nat, r: Removal)
    requires Timed(env, rows, n)
    requires RemovedFrom(rows, env.clock(n) - env.cfg.ackedRetentionMs, env.clock(n) - env.cfg.expiredRetentionMs, r)
    ensures DatedRemoval(env, n + 1, r)
  {
    assert TimelyRow(env, n, r.row);
    assert RemovedAt(env, n, r);
  }

  /** A cleanup made at the newest reading. */
  lemma CleanupTimed(env: Env, w: World, n: nat)
    requires w.clockReads == n + 1 && Timed(env, w.rows, n) && Dated(env, w.cleaned, n)
    ensures var w' := Cleanup(env, w, env.clock(n));
      Timed(env, w'.rows, n) && Dated(env, w'.cleaned, n + 1) && w'.clockReads == n + 1
  {
    hide CleanFrom;
    hide TimelyRow;
    hide DatedRemoval;
    hide RemovedFrom;
    DatedLater(env, w.cleaned, n, n + 1);
    var cfg, now, w' := env.cfg, env.clock(n), Cleanup(env, w, env.clock(n));
    var ackedBefore, expiredBefore := now - cfg.ackedRetentionMs, now - cfg.expiredRetentionMs;
    CleanRemoves(w.rows, 0, ackedBefore, expiredBefore, cfg.cleanupBatch, cfg.cleanupBatch);
    var gone := CleanFrom(w.rows, 0, ackedBefore, expiredBefore, cfg.cleanupBatch, cfg.cleanupBatch).1;
    assert w'.cleaned == w.cleaned || w'.cleaned == w.cleaned + gone;
    forall r | |w.cleaned| <= r < |w'.cleaned| ensures DatedRemoval(env, n + 1, w'.cleaned[r]) {
      assert w'.cleaned[r] in gone;
      DatedRow(env, w.rows, n, w'.cleaned[r]);
    }
  }

  // ---- Operations ----

  lemma TickTimed(env: Env, w: World)
    requires env.cfg.leaseMs > 0 && Timed(env, w.rows, w.clockReads) && Dated(env, w.cleaned, w.clockReads)
    ensures var w' := Tick(env, w);
      Timed(env, w'.rows, w'.clockReads) && Dated(env, w'.cleaned, w'.clockReads) && w.clockReads <= w'.clockReads
  {
    hide Timed;
    hide Dated;
    hide ExpireFrom;
    hide Cleanup;
    hide RollBack;
    hide ClaimEach;
    hide DueFrom;
    hide Retriers;
    var n, cfg, now := w.clockReads, env.cfg, env.clock(w.clockReads);
    var w1 := ExpireOverdue(env, w.(clockReads := n + 1), now);
    ExpireTimed(env, w.rows, 0, now, cfg.retryBatchLimit, n);
    var w2 := Cleanup(env, w1, now);
    CleanupTimed(env, w1, n);
    TimedLater(env, w2.rows, n, n + 1);
    var w3 := w2.(coord := w2.coord.(tickNexts := []));
    var due := DueFrom(w2.rows, 0, now, cfg.retryBatchLimit);
    DueInRange(w2.rows, 0, now, cfg.retryBatchLimit);
    RollBackTimed(env, w3, due);
    var w4 := RollBack(env, w3, due);
    ClaimEachTimed(env, w4, Retriers(w3.coord, RowsAt(w2.rows, due)));
    DatedLater(env, w2.cleaned, n + 1, Tick(env, w).clockReads);
  }

  lemma AckRowTimed(env: Env, w: World, i: nat)
    requires i < |w.rows| && Timed(env, w.rows, w.clockReads)
    ensures var w' := AckRow(env, w, i); Timed(env, w'.rows, w'.clockReads) && Onward(w, w')
  {
    hide Timed;
    TimedLater(env, w.rows, w.clockReads, w.clockReads + 1);
    TimedAt(env, w.rows, w.clockReads + 1, i);
    TimedUpdate(env, w.rows, w.clockReads + 1, i, AckRow(env, w, i).rows[i]);
  }

  lemma AcknowledgeTimed(env: Env, w: World, acker: Session, id: nat)
    requires env.cfg.leaseMs > 0 && Timed(env, w.rows, w.clockReads)
    ensures var w' := Acknowledge(env, w, acker, id); Timed(env, w'.rows, w'.clockReads) && Onward(w, w')
  {
    hide Timed;
    hide ClaimFor;
    hide AckRow;
    if AckResultOf(w, acker, id) == AckAcknowledged {
      var i := IndexOf(w.rows, Key(id, acker.user));
      AckRowTimed(env, w, i);
      ClaimForTimed(env, AckRow(env, w, i), acker);
    }
  }

  lemma AvailableTimed(env: Env, w: World, session: Session)
    requires env.cfg.leaseMs > 0 && Timed(env, w.rows, w.clockReads)
    ensures var w' := SessionAvailable(env, w, session); Timed(env, w'.rows, w'.clockReads) && Onward(w, w')
  {
    hide Timed;
    hide ClaimFor;
    hide FenceFrom;
    var w1 := w.(coord := w.coord.(observed := w.coord.observed[session.user := session.generation]));
    FenceTimed(env, w1, session, 0);
    var w2 := FenceFrom(env, w1, session, 0);
    ClaimForTimed(env, w2.(coord := w2.coord.(active := w2.coord.active[session.user := session])), session);
  }

  lemma ClosedTimed(env: Env, w: World, session: Session)
    requires env.cfg.leaseMs > 0 && Timed(env, w.rows, w.clockReads)
    ensures var w' := SessionClosed(env, w, session); Timed(env, w'.rows, w'.clockReads) && Onward(w, w')
  {
    hide Timed;
    hide ClaimFor;
    hide CloseFrom;
    var mine := session.user in w.coord.active && w.coord.active[session.user] == session;
    var w1 := w.(coord := w.coord.(paused := w.coord.paused - {session},
                                   active := if mine then w.coord.active - {session.user} else w.coord.active));
    CloseTimed(env, w1, session, 0);
    if session.user in w1.coord.active {
      ClaimForTimed(env, CloseFrom(env, w1, session, 0), w1.coord.active[session.user]);
    }
  }

  lemma AcceptTimed(env: Env, w: World, sender: Session, cmd: Command)
    requires env.cfg.leaseMs > 0 && Timed(env, w.rows, w.clockReads)
    ensures var w' := Accept(env, w, sender, cmd); Timed(env, w'.rows, w'.clockReads) && Onward(w, w')
  {
    hide Timed;
    hide OnAccepted;
    hide InsertRows;
    var k := Ledger.AcceptKey(sender.user, cmd.clientId);
    if k in w.ledger.accepted {
      OnAcceptedTimed(env, w, RecipientsFor(w.ledger.accepted[k].command));
    } else {
      var m, taken := Ledger.AcceptedMessage(w.ledger, sender.user, cmd, env.clock(w.clockReads)), w.clockReads + 2;
      var expiresAt := env.clock(w.clockReads + 1) + env.cfg.messageRetentionMs;
      TimedLater(env, w.rows, w.clockReads, taken);
      assert IsReading(env, taken, expiresAt - env.cfg.messageRetentionMs);
      InsertRowsTimed(env, w.rows, m, RecipientsFor(cmd), expiresAt, taken);
      OnAcceptedTimed(env, Enrol(env, w, sender.user, cmd), RecipientsFor(cmd));
    }
  }

  lemma StepTimed(env: Env, w: World, op: Op)
    requires env.cfg.leaseMs > 0 && Timed(env, w.rows, w.clockReads) && Dated(env, w.cleaned, w.clockReads)
    ensures var w' := Step(env, w, op); Timed(env, w'.rows, w'.clockReads) && Dated(env, w'.cleaned, w'.clockReads)
  {
    hide Timed;
    hide Dated;
    hide Tick;
    hide Accept;
    hide Acknowledge;
    hide SessionAvailable;
    hide SessionClosed;
    hide ClaimFor;
    hide OnAccepted;
    if op.OpTick? {
      TickTimed(env, w);
    } else {
      var w1 := if op.OpAvailable? then SessionAvailable(env, w, op.session) else Step(env, w, op);
      match op {
        case OpAccept(sender, cmd) => AcceptTimed(env, w, sender, cmd);
        case OpAcknowledge(acker, id) => AcknowledgeTimed(env, w, acker, id);
        case OpAvailable(session) => AvailableTimed(env, w, session);
        case OpClosed(session) => ClosedTimed(env, w, session);
        case OpResume(session) =>
          ClaimForTimed(env, w.(coord := w.coord.(paused := w.coord.paused - {session})), session);
        case OpWakeup(recipients) => OnAcceptedTimed(env, w, recipients);
        case _ =>
      }
      DatedLater(env, w.cleaned, w.clockReads, w1.clockReads);
      if op.OpAvailable? {
        TickTimed(env, w1);
      }
    }
  }

  lemma {:induction false} RunTimed(env: Env, boot: nat, ops: seq<Op>)
    requires env.cfg.leaseMs > 0
    ensures var w := Run(env, Initial(boot), ops);
      Timed(env, w.rows, w.clockReads) && Dated(env, w.cleaned, w.clockReads)
  {
    hide Step;
    if ops != [] {
      RunTimed(env, boot, ops[..|ops| - 1]);
      StepTimed(env, Run(env, Initial(boot), ops[..|ops| - 1]), ops[|ops| - 1]);
    }
  }

  /**
    Over every run: a row in flight was last sent at a clock reading, its lease runs
    for the configured length from there, and it is due again the delay of its
    attempt count later, under some jitter.
  */
  lemma LeasesAreTimed(env: Env, boot: nat, ops: seq<Op>, d: Delivery)
    requires env.cfg.leaseMs > 0 && d in Run(env, Initial(boot), ops).rows && d.state == InFlight
    ensures IsReading(env, Run(env, Initial(boot), ops).clockReads, d.lastSentAt) && Scheduled(env, d)
    ensures d.attempts > 0 && d.leaseUntil == d.lastSentAt + env.cfg.leaseMs
  {
    hide IsReading;
    hide Scheduled;
    hide Run;
    RunTimed(env, boot, ops);
  }

  /** Over every run, with any jitter: a row once admitted is next due at least the ACK timeout after its last send. */
  lemma RetriesAreSpaced(env: Env, boot: nat, ops: seq<Op>)
    requires env.cfg.leaseMs > 0
    ensures var w := Run(env, Initial(boot), ops);
      forall d :: d in w.rows && d.attempts > 0 ==> d.nextAttemptAt - d.lastSentAt >= env.cfg.ackTimeoutMs
  {
    hide IsReading;
    RunTimed(env, boot, ops);
  }
}
