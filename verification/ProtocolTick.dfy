/**
  What the scheduler's tick gets done: overdue rows expire, rows past retention are
  cleaned up when the cycle is due, due rows are attempted again, and rows under a
  running lease are left alone.
*/
module ProtocolTick {
  import opened Domain
  import opened Protocol
  import opened ProtocolSafety
  import opened ProtocolRuns
  import opened ProtocolTheorems
  import opened ProtocolClaims
  import opened ProtocolProgress
  import opened ProtocolDelivery
  import opened ProtocolSessions
  import Ledger

  // ---- The stages of a tick ----

  function Aged(env: Env, w: World): World {
    ExpireOverdue(env, w.(clockReads := w.clockReads + 1), env.clock(w.clockReads))
  }

  function Swept(env: Env, w: World): World {
    Cleanup(env, Aged(env, w), env.clock(w.clockReads))
  }

  lemma TickStages(env: Env, w: World)
    requires env.cfg.leaseMs > 0
    ensures Tick(env, w) == RetryScan(env, Swept(env, w), env.clock(w.clockReads))
  {}

  lemma StagesInv(env: Env, w: World)
    requires env.cfg.leaseMs > 0 && Inv(w)
    ensures Inv(Aged(env, w)) && Inv(Swept(env, w))
    ensures Swept(env, w).log == w.log && Swept(env, w).coord == w.coord
    ensures Swept(env, w).clockReads == w.clockReads + 1
  {
    hide Deliveries;
    hide Ledger.Exact;
    hide ExpireFrom;
    hide CleanFrom;
    hide RecordExpiries;
    var now := env.clock(w.clockReads);
    ClockInv(w);
    ExpireOverdueInv(env, w.(clockReads := w.clockReads + 1), now);
    CleanupInv(env, Aged(env, w), now);
  }

  // ---- Expiry ----

  predicate Overdue(d: Delivery, now: int) {
    (d.state == Pending || d.state == InFlight) && d.expiresAt > 0 && now > d.expiresAt
  }

  /** How many of the first n rows are overdue. */
  function OverdueCount(rows: seq<Delivery>, now: int, n: nat): nat
    requires n <= |rows|
  {
    if n == 0 then 0 else OverdueCount(rows, now, n - 1) + if Overdue(rows[n - 1], now) then 1 else 0
  }

  lemma {:induction false} OverdueGrows(rows: seq<Delivery>, now: int, i: nat, j: nat)
    requires i <= j <= |rows|
    ensures OverdueCount(rows, now, i) <= OverdueCount(rows, now, j)
    decreases j
  {
    if i < j {
      OverdueGrows(rows, now, i, j - 1);
    }
  }

  lemma {:induction false} OverdueSame(rows: seq<Delivery>, rows': seq<Delivery>, now: int, i: nat, j: nat)
    requires i <= j <= |rows| == |rows'| && forall k :: i <= k < j ==> rows'[k] == rows[k]
    ensures OverdueCount(rows', now, j) - OverdueCount(rows', now, i)
         == OverdueCount(rows, now, j) - OverdueCount(rows, now, i)
    decreases j
  {
    if i < j {
      OverdueSame(rows, rows', now, i, j - 1);
    }
  }

  /** Expiry takes the overdue rows in order up to its limit, and no other row. */
  lemma {:induction false} ExpireInOrder(rows: seq<Delivery>, i: nat, now: int, limit: nat, j: nat)
    requires i <= j < |rows|
    ensures var rows' := ExpireFrom(rows, i, now, limit).0;
      && |rows'| == |rows|
      && rows'[j] == if Overdue(rows[j], now) && OverdueCount(rows, now, j) - OverdueCount(rows, now, i) < limit
                     then rows[j].(state := Expired) else rows[j]
    decreases |rows| - i
  {
    OverdueGrows(rows, now, i, j);
    if limit > 0 {
      if ExpiryDue(rows[i], now) {
        var rows1 := rows[i := rows[i].(state := Expired)];
        if j > i {
          ExpireInOrder(rows1, i + 1, now, limit - 1, j);
          OverdueSame(rows, rows1, now, i + 1, j);
        } else {
          ExpireLeaves(rows1, i + 1, now, limit - 1, i);
        }
      } else if j > i {
        ExpireInOrder(rows, i + 1, now, limit, j);
      } else {
        ExpireLeaves(rows, i + 1, now, limit, i);
      }
    }
  }

  lemma {:induction false} ExpireLeaves(rows: seq<Delivery>, i: nat, now: int, limit: nat, j: nat)
    requires j < i <= |rows|
    ensures |ExpireFrom(rows, i, now, limit).0| == |rows| && ExpireFrom(rows, i, now, limit).0[j] == rows[j]
    decreases |rows| - i
  {
    if i < |rows| && limit > 0 {
      if ExpiryDue(rows[i], now) {
        ExpireLeaves(rows[i := rows[i].(state := Expired)], i + 1, now, limit - 1, j);
      } else {
        ExpireLeaves(rows, i + 1, now, limit, j);
      }
    }
  }

  lemma AgedRow(env: Env, w: World, j: nat)
    requires j < |w.rows|
    ensures var now := env.clock(w.clockReads);
      && |Aged(env, w).rows| == |w.rows| && Aged(env, w).cleaned == w.cleaned
      && Aged(env, w).lastCleanup == w.lastCleanup
      && Aged(env, w).rows[j]
         == if Overdue(w.rows[j], now) && OverdueCount(w.rows, now, j) < env.cfg.retryBatchLimit
            then w.rows[j].(state := Expired) else w.rows[j]
  {
    hide ExpireFrom;
    ExpireInOrder(w.rows, 0, env.clock(w.clockReads), env.cfg.retryBatchLimit, j);
  }

  // ---- What the scan leaves alone ----

  /** No claim of the scan can take the row: its recipient is offline, or its lease outlasts every reading. */
  ghost predicate OutOfReach(env: Env, c: Coordinator, d: Delivery, from: nat, to: nat) {
    || d.state == Acknowledged || d.state == Expired
    || (d.state == InFlight && (d.recipient !in c.active || forall n :: from <= n < to ==> d.leaseUntil > env.clock(n)))
  }

  lemma {:induction false} ClaimEachKeeps(env: Env, w: World, sessions: seq<Session>, c: Coordinator, j: nat, to: nat)
    requires env.cfg.leaseMs > 0 && j < |w.rows| && ClaimEach(env, w, sessions).clockReads <= to
    requires OutOfReach(env, c, w.rows[j], w.clockReads, to)
    requires forall x :: x in sessions ==> x.user in c.active
    ensures var w' := ClaimEach(env, w, sessions);
      && |w'.rows| == |w.rows| && w'.rows[j] == w.rows[j] && w'.cleaned == w.cleaned && w'.lastCleanup == w.lastCleanup
      && w.clockReads <= w'.clockReads
    decreases |sessions|
  {
    hide ClaimFor;
    if sessions != [] {
      var w1 := ClaimFor(env, w, sessions[0]);
      ClaimExactly(env, w, sessions[0]);
      ClaimEachClock(env, w1, sessions[1..]);
      ClaimStamp(env, w, sessions[0]);
      OutOfReachKept(env, w, w1, sessions[0], c, j, to);
      ClaimEachKeeps(env, w1, sessions[1..], c, j, to);
    }
  }

  lemma OutOfReachKept(env: Env, w: World, w1: World, x: Session, c: Coordinator, j: nat, to: nat)
    requires j < |w.rows| && OutOfReach(env, c, w.rows[j], w.clockReads, to) && x.user in c.active
    requires w1 == w || (w1.clockReads == w.clockReads + 1 <= to
                         && exists stopped :: ClaimEffect(env.cfg, w, w1, x, env.clock(w.clockReads), stopped))
    ensures |w1.rows| == |w.rows| && w1.rows[j] == w.rows[j] && w1.cleaned == w.cleaned
    ensures OutOfReach(env, c, w1.rows[j], w1.clockReads, to)
  {}

  lemma {:induction false} ClaimEachClock(env: Env, w: World, sessions: seq<Session>)
    requires env.cfg.leaseMs > 0
    ensures w.clockReads <= ClaimEach(env, w, sessions).clockReads
    decreases |sessions|
  {
    hide ClaimFor;
    if sessions != [] {
      ClaimExactly(env, w, sessions[0]);
      ClaimEachClock(env, ClaimFor(env, w, sessions[0]), sessions[1..]);
    }
  }

  lemma {:induction false} ConversationStamp(env: Env, w: World, session: Session, conv: nat, now: int)
    requires env.cfg.leaseMs > 0
    ensures ClaimConversation(env, w, session, conv, now).0.lastCleanup == w.lastCleanup
    decreases |ClaimableIn(w.rows, session.user, conv, now)|
  {
    hide ClaimMetrics;
    hide ClaimedRow;
    var h := Head(w, session.user, conv);
    if && h >= 0 && Claimable(w.rows[h], now) && w.rows[h].messageId in w.ledger.messages
       && env.answers(|w.log|) == Accepted {
      TriedShrinks(env, w, session, h, now, conv);
      ConversationStamp(env, Tried(env, w, session, h, now), session, conv, now);
    }
  }

  lemma {:induction false} ConversationsStamp(env: Env, w: World, session: Session, convs: seq<nat>, now: int)
    requires env.cfg.leaseMs > 0
    ensures ClaimConversations(env, w, session, convs, now).lastCleanup == w.lastCleanup
    decreases |convs|
  {
    hide ClaimConversation;
    if convs != [] {
      ConversationStamp(env, w, session, convs[0], now);
      ConversationsStamp(env, ClaimConversation(env, w, session, convs[0], now).0, session, convs[1..], now);
    }
  }

  lemma ClaimStamp(env: Env, w: World, session: Session)
    requires env.cfg.leaseMs > 0
    ensures ClaimFor(env, w, session).lastCleanup == w.lastCleanup
  {
    hide ClaimConversations;
    ConversationsStamp(env, w.(clockReads := w.clockReads + 1), session,
                       OpenConversations(w.rows, session.user, |w.rows|), env.clock(w.clockReads));
  }

  predicate Due(d: Delivery, now: int) {
    d.state == InFlight && 0 < d.nextAttemptAt <= now
  }

  /** The retry scan leaves alone whatever is not due and out of reach of its claims. */
  lemma ScanKeeps(env: Env, w: World, now: int, j: nat)
    requires env.cfg.leaseMs > 0 && OwnSessions(w.coord) && j < |w.rows| && !Due(w.rows[j], now)
    requires OutOfReach(env, w.coord, w.rows[j], w.clockReads, RetryScan(env, w, now).clockReads)
    ensures var w' := RetryScan(env, w, now);
      && |w'.rows| == |w.rows| && w'.rows[j] == w.rows[j] && w'.cleaned == w.cleaned && w'.lastCleanup == w.lastCleanup
  {
    hide ClaimEach;
    hide DueFrom;
    hide Retriers;
    hide RollBack;
    hide OutOfReach;
    var w0 := w.(coord := w.coord.(tickNexts := []));
    var due := DueFrom(w.rows, 0, now, env.cfg.retryBatchLimit);
    DueInRange(w.rows, 0, now, env.cfg.retryBatchLimit);
    RollBackRows(env, w0, due);
    var w1, sessions := RollBack(env, w0, due), Retriers(w0.coord, RowsAt(w.rows, due));
    assert j !in due;
    forall x | x in sessions ensures x.user in w.coord.active {
      var i :| 0 <= i < |sessions| && sessions[i] == x;
      RetriersActive(w0.coord, RowsAt(w.rows, due), i);
    }
    ClaimEachKeeps(env, w1, sessions, w.coord, j, RetryScan(env, w, now).clockReads);
  }

  lemma {:induction false} ClaimEachBooks(env: Env, w: World, sessions: seq<Session>)
    requires env.cfg.leaseMs > 0
    ensures var w' := ClaimEach(env, w, sessions); w'.cleaned == w.cleaned && w'.lastCleanup == w.lastCleanup
    decreases |sessions|
  {
    hide ClaimFor;
    if sessions != [] {
      ClaimExactly(env, w, sessions[0]);
      ClaimStamp(env, w, sessions[0]);
      ClaimEachBooks(env, ClaimFor(env, w, sessions[0]), sessions[1..]);
    }
  }

  lemma ScanBooks(env: Env, w: World, now: int)
    requires env.cfg.leaseMs > 0
    ensures var w' := RetryScan(env, w, now); w'.cleaned == w.cleaned && w'.lastCleanup == w.lastCleanup
  {
    hide ClaimEach;
    hide DueFrom;
    hide Retriers;
    hide RollBack;
    var w0 := w.(coord := w.coord.(tickNexts := []));
    var due := DueFrom(w.rows, 0, now, env.cfg.retryBatchLimit);
    DueInRange(w.rows, 0, now, env.cfg.retryBatchLimit);
    RollBackRows(env, w0, due);
    ClaimEachBooks(env, RollBack(env, w0, due), Retriers(w0.coord, RowsAt(w.rows, due)));
  }

  // ---- Cleanup ----

  /** The row is still in the table, or was taken out meanwhile. */
  ghost predicate KeptOrCleaned(w: World, w': World, d: Delivery) {
    d in w'.rows || (w.cleaned <= w'.cleaned && CleanedSince(w'.cleaned, |w.cleaned|, d))
  }

  ghost predicate CleanedSince(cleaned: seq<Removal>, from: nat, d: Delivery) {
    exists r :: from <= r < |cleaned| && cleaned[r].row == d
  }

  lemma {:induction false} RowsOfHolds(gone: seq<Removal>, d: Delivery)
    requires d in RowsOf(gone)
    ensures CleanedSince(gone, 0, d)
  {
    if gone[0].row != d {
      assert d in RowsOf(gone[1..]);
      RowsOfHolds(gone[1..], d);
      var r :| 0 <= r < |gone[1..]| && gone[1..][r].row == d;
      assert gone[r + 1].row == d;
    } else {
      assert gone[0].row == d;
    }
  }

  lemma CleanedAppend(cleaned: seq<Removal>, gone: seq<Removal>, d: Delivery)
    requires CleanedSince(gone, 0, d)
    ensures CleanedSince(cleaned + gone, |cleaned|, d)
  {
    var r :| 0 <= r < |gone| && gone[r].row == d;
    assert (cleaned + gone)[|cleaned| + r].row == d;
  }

  lemma SweptRow(env: Env, w: World, d: Delivery)
    requires d in Aged(env, w).rows
    ensures KeptOrCleaned(w, Swept(env, w), d)
    ensures d.state == Pending || d.state == InFlight ==> d in Swept(env, w).rows
  {
    hide CleanFrom;
    hide ExpireFrom;
    hide RowsOf;
    var w1, now, cfg := Aged(env, w), env.clock(w.clockReads), env.cfg;
    if now - w1.lastCleanup >= cfg.cleanupCycleMs {
      var ackedBefore, expiredBefore, n := now - cfg.ackedRetentionMs, now - cfg.expiredRetentionMs, cfg.cleanupBatch;
      var (rows, gone) := CleanFrom(w1.rows, 0, ackedBefore, expiredBefore, n, n);
      CleanConserves(w1.rows, 0, ackedBefore, expiredBefore, n, n);
      assert d in multiset(w1.rows);
      assert d in rows || d in RowsOf(gone);
      if d !in rows {
        RowsOfHolds(gone, d);
        CleanedAppend(w.cleaned, gone, d);
        RemovedAreDone(w1.rows, 0, ackedBefore, expiredBefore, n, n, d);
      }
    }
  }

  lemma {:induction false} RemovedAreDone(rows: seq<Delivery>, i: nat, ackedBefore: int, expiredBefore: int, a: nat,
                                          e: nat, d: Delivery)
    requires i <= |rows| && CleanedSince(CleanFrom(rows, i, ackedBefore, expiredBefore, a, e).1, 0, d)
    ensures d.state == Acknowledged || d.state == Expired
    decreases |rows| - i
  {
    hide CleanFrom;
    var gone := CleanFrom(rows, i, ackedBefore, expiredBefore, a, e).1;
    if i == |rows| {
      NothingToClean(rows, ackedBefore, expiredBefore, a, e);
    } else {
      CleanTurn(rows, i, ackedBefore, expiredBefore, a, e);
      var acked, past := AckedPast(rows[i], ackedBefore) && a > 0, ExpiredPast(rows[i], expiredBefore) && e > 0;
      if acked || past {
        var a', e', less := if acked then a - 1 else a, if acked then e else e - 1, rows[..i] + rows[i + 1..];
        var rest := CleanFrom(less, i, ackedBefore, expiredBefore, a', e').1;
        var r :| 0 <= r < |gone| && gone[r].row == d;
        if r > 0 {
          assert rest[r - 1].row == d;
          RemovedAreDone(less, i, ackedBefore, expiredBefore, a', e', d);
        }
      } else {
        RemovedAreDone(rows, i + 1, ackedBefore, expiredBefore, a, e, d);
      }
    }
  }

  lemma NothingToClean(rows: seq<Delivery>, ackedBefore: int, expiredBefore: int, a: nat, e: nat)
    ensures CleanFrom(rows, |rows|, ackedBefore, expiredBefore, a, e).1 == []
  {}

  // ---- What a tick gets done ----

  lemma RowIn(rows: seq<Delivery>, d: Delivery) returns (j: nat)
    requires d in rows
    ensures j < |rows| && rows[j] == d
  {
    j :| 0 <= j < |rows| && rows[j] == d;
  }

  /** A closed row after the sweep is there after the whole tick. */
  lemma ClosedSurvives(env: Env, w: World, d: Delivery)
    requires env.cfg.leaseMs > 0 && Inv(w) && d in Swept(env, w).rows && (d.state == Acknowledged || d.state == Expired)
    ensures d in Tick(env, w).rows
  {
    hide Deliveries;
    hide Ledger.Exact;
    hide Swept;
    hide RetryScan;
    hide Tick;
    StagesInv(env, w);
    InvOwnSessions(Swept(env, w));
    hide OwnSessions;
    TickStages(env, w);
    var j := RowIn(Swept(env, w).rows, d);
    ScanKeeps(env, Swept(env, w), env.clock(w.clockReads), j);
  }

  /**
    A tick expires: an overdue open row with fewer overdue rows before it than the
    batch allows is Expired afterwards, or was expired and cleaned up at once.
  */
  lemma TickExpires(env: Env, w: World, i: nat)
    requires Reachable(env, w) && i < |w.rows| && Overdue(w.rows[i], env.clock(w.clockReads))
    requires OverdueCount(w.rows, env.clock(w.clockReads), i) < env.cfg.retryBatchLimit
    ensures KeptOrCleaned(w, Step(env, w, OpTick), w.rows[i].(state := Expired))
  {
    hide Deliveries;
    hide Ledger.Exact;
    hide Tick;
    hide Aged;
    hide Swept;
    hide CleanedSince;
    hide OverdueCount;
    hide RetryScan;
    ReachableInv(env, w);
    hide Reachable;
    var d := w.rows[i].(state := Expired);
    AgedRow(env, w, i);
    assert d == Aged(env, w).rows[i];
    SweptRow(env, w, d);
    TickStages(env, w);
    ScanBooks(env, Swept(env, w), env.clock(w.clockReads));
    if d in Swept(env, w).rows {
      ClosedSurvives(env, w, d);
    }
  }

  /** The removals of this tick. */
  function Gone(env: Env, w: World): seq<Removal>
    requires env.cfg.leaseMs > 0
  {
    var cleaned := Step(env, w, OpTick).cleaned;
    if |w.cleaned| <= |cleaned| then cleaned[|w.cleaned|..] else []
  }

  /**
    A tick cleans up when its cycle is due and only then: it notes the time, and a
    row that was past its retention is gone unless the batch was used up by rows of
    its own kind.
  */
  lemma TickCleans(env: Env, w: World, i: nat)
    requires Reachable(env, w) && i < |w.rows|
    ensures var w', now, d := Step(env, w, OpTick), env.clock(w.clockReads), w.rows[i];
      var due := now - w.lastCleanup >= env.cfg.cleanupCycleMs;
      && w.cleaned <= w'.cleaned && w'.lastCleanup == (if due then now else w.lastCleanup)
      && (!due ==> w'.cleaned == w.cleaned)
      && (due && d.state == Acknowledged && 0 < d.acknowledgedAt <= now - env.cfg.ackedRetentionMs ==>
            CleanedSince(w'.cleaned, |w.cleaned|, d) || AckedIn(Gone(env, w)) == env.cfg.cleanupBatch)
      && (due && d.state == Expired && 0 < d.expiresAt <= now - env.cfg.expiredRetentionMs ==>
            CleanedSince(w'.cleaned, |w.cleaned|, d) || ExpiredIn(Gone(env, w)) == env.cfg.cleanupBatch)
  {
    hide Reachable;
    hide Tick;
    hide RetryScan;
    hide CleanedSince;
    hide AckedIn;
    hide ExpiredIn;
    hide OverdueCount;
    LeaseLasts(env, w);
    TickStages(env, w);
    ScanBooks(env, Swept(env, w), env.clock(w.clockReads));
    AgedRow(env, w, i);
    SweptBooks(env, w, w.rows[i]);
  }

  lemma LeaseLasts(env: Env, w: World)
    requires Reachable(env, w)
    ensures env.cfg.leaseMs > 0
  {}

  lemma SweptBooks(env: Env, w: World, d: Delivery)
    ensures var w', now := Swept(env, w), env.clock(w.clockReads);
      var due := now - w.lastCleanup >= env.cfg.cleanupCycleMs;
      && w.cleaned <= w'.cleaned && w'.lastCleanup == (if due then now else w.lastCleanup)
      && (!due ==> w'.cleaned == w.cleaned)
      && (due && d in Aged(env, w).rows && d.state == Acknowledged
          && 0 < d.acknowledgedAt <= now - env.cfg.ackedRetentionMs ==>
            CleanedSince(w'.cleaned, |w.cleaned|, d)
            || AckedIn(w'.cleaned[|w.cleaned|..]) == env.cfg.cleanupBatch)
      && (due && d in Aged(env, w).rows && d.state == Expired
          && 0 < d.expiresAt <= now - env.cfg.expiredRetentionMs ==>
            CleanedSince(w'.cleaned, |w.cleaned|, d)
            || ExpiredIn(w'.cleaned[|w.cleaned|..]) == env.cfg.cleanupBatch)
  {
    hide CleanFrom;
    hide ExpireFrom;
    hide CleanedSince;
    hide AckedIn;
    hide ExpiredIn;
    var w1, w', now, cfg := Aged(env, w), Swept(env, w), env.clock(w.clockReads), env.cfg;
    var ackedBefore, expiredBefore, n := now - cfg.ackedRetentionMs, now - cfg.expiredRetentionMs, cfg.cleanupBatch;
    if now - w.lastCleanup >= cfg.cleanupCycleMs {
      CleanThorough(w1.rows, 0, ackedBefore, expiredBefore, n, n);
      var (rows, gone) := CleanFrom(w1.rows, 0, ackedBefore, expiredBefore, n, n);
      assert (w.cleaned + gone)[|w.cleaned|..] == gone;
      if d in w1.rows {
        SweptRow(env, w, d);
        if d in rows {
          var j := RowIn(rows, d);
        }
      }
    }
  }

  // ---- Retrying ----

  /** The keys of due rows before this one. */
  ghost function DueBefore(rows: seq<Delivery>, k: Key, now: int): set<Key> {
    set d | d in rows && Due(d, now) && KeyLess(d.Id(), k) :: d.Id()
  }

  lemma {:induction false} KeyCount(rows: seq<Delivery>, at: seq<nat>)
    requires Sorted(rows) && forall k :: 0 <= k < |at| ==> at[k] < |rows|
    requires forall k, m :: 0 <= k < m < |at| ==> at[k] < at[m]
    ensures |KeysAt(rows, at)| == |at|
  {
    if at != [] {
      var init, last := at[..|at| - 1], at[|at| - 1];
      KeyCount(rows, init);
      assert KeysAt(rows, at) == KeysAt(rows, init) + {rows[last].Id()} by {
        assert forall x :: x in at <==> x in init || x == last;
      }
      forall x | x in init ensures KeyLess(rows[x].Id(), rows[last].Id()) {
        var k :| 0 <= k < |init| && init[k] == x;
        assert at[k] < at[|at| - 1];
      }
    }
  }

  ghost function KeysAt(rows: seq<Delivery>, at: seq<nat>): set<Key>
    requires forall k :: 0 <= k < |at| ==> at[k] < |rows|
  {
    set x | x in at :: rows[x].Id()
  }

  lemma KeySubset(a: set<Key>, b: set<Key>)
    requires a <= b
    ensures |a| <= |b|
  {
    assert b == a + (b - a);
  }

  /** A due row with fewer due rows before it than the limit is among those scanned. */
  lemma DueWithin(rows: seq<Delivery>, now: int, limit: nat, j: nat)
    requires Sorted(rows) && j < |rows| && Due(rows[j], now) && |DueBefore(rows, rows[j].Id(), now)| < limit
    ensures j in DueFrom(rows, 0, now, limit)
  {
    var due := DueFrom(rows, 0, now, limit);
    DueExactly(rows, 0, now, limit, j);
    DueInRange(rows, 0, now, limit);
    if j !in due {
      KeyCount(rows, due);
      forall k | k in KeysAt(rows, due) ensures k in DueBefore(rows, rows[j].Id(), now) {
        var x :| x in due && rows[x].Id() == k;
        var i :| 0 <= i < |due| && due[i] == x;
        assert KeyLess(rows[x].Id(), rows[j].Id());
      }
      KeySubset(KeysAt(rows, due), DueBefore(rows, rows[j].Id(), now));
      assert false;
    }
  }

  /** A due row that is not overdue comes through expiry and cleanup with no more due rows before it. */
  lemma DueSurvives(env: Env, w: World, i: nat) returns (j: nat)
    requires i < |w.rows| && Due(w.rows[i], env.clock(w.clockReads)) && !Overdue(w.rows[i], env.clock(w.clockReads))
    ensures j < |Swept(env, w).rows| && Swept(env, w).rows[j] == w.rows[i]
    ensures var k, now := w.rows[i].Id(), env.clock(w.clockReads);
      |DueBefore(Swept(env, w).rows, k, now)| <= |DueBefore(w.rows, k, now)|
  {
    hide Swept;
    hide Aged;
    hide OverdueCount;
    var k, now := w.rows[i].Id(), env.clock(w.clockReads);
    AgedRow(env, w, i);
    SweptRow(env, w, w.rows[i]);
    j := RowIn(Swept(env, w).rows, w.rows[i]);
    forall x | x in DueBefore(Swept(env, w).rows, k, now) ensures x in DueBefore(w.rows, k, now) {
      var d :| d in Swept(env, w).rows && Due(d, now) && KeyLess(d.Id(), k) && d.Id() == x;
      SweptFrom(env, w, d);
      var n := RowIn(Aged(env, w).rows, d);
      AgedLength(env, w);
      AgedRow(env, w, n);
      assert d == w.rows[n];
    }
    KeySubset(DueBefore(Swept(env, w).rows, k, now), DueBefore(w.rows, k, now));
  }

  lemma AgedLength(env: Env, w: World)
    ensures |Aged(env, w).rows| == |w.rows|
  {
    ExpireFromRows(w.rows, 0, env.clock(w.clockReads), env.cfg.retryBatchLimit);
  }

  lemma SweptFrom(env: Env, w: World, d: Delivery)
    requires d in Swept(env, w).rows
    ensures d in Aged(env, w).rows
  {
    hide CleanFrom;
    hide Aged;
    hide RowsOf;
    var w1, now, cfg := Aged(env, w), env.clock(w.clockReads), env.cfg;
    if now - w1.lastCleanup >= cfg.cleanupCycleMs {
      var ackedBefore, expiredBefore, n := now - cfg.ackedRetentionMs, now - cfg.expiredRetentionMs, cfg.cleanupBatch;
      CleanConserves(w1.rows, 0, ackedBefore, expiredBefore, n, n);
      assert d in multiset(CleanFrom(w1.rows, 0, ackedBefore, expiredBefore, n, n).0);
      assert d in multiset(w1.rows);
    }
  }

  /**
    A tick retries: a row that is due and not overdue, with fewer due rows before it
    than the batch allows, whose recipient's session is active and unpaused, is
    attempted again, unless the sink pauses that session first.
  */
  lemma TickRetries(env: Env, w: World, i: nat)
    requires Reachable(env, w) && i < |w.rows|
    requires Due(w.rows[i], env.clock(w.clockReads)) && !Overdue(w.rows[i], env.clock(w.clockReads))
    requires |DueBefore(w.rows, w.rows[i].Id(), env.clock(w.clockReads))| < env.cfg.retryBatchLimit
    requires w.rows[i].recipient in w.coord.active && w.coord.active[w.rows[i].recipient] !in w.coord.paused
    ensures Reached(Step(env, w, OpTick).log, |w.log|, w.rows[i].Id())
  {
    hide Deliveries;
    hide Ledger.Exact;
    hide Swept;
    hide DueBefore;
    hide RetryScan;
    hide Tick;
    hide Attempted;
    hide PausedSince;
    hide DueFrom;
    ReachableInv(env, w);
    hide Reachable;
    var now, s := env.clock(w.clockReads), w.coord.active[w.rows[i].recipient];
    var j := DueSurvives(env, w, i);
    StagesInv(env, w);
    InvSortedRows(Swept(env, w));
    DueWithin(Swept(env, w).rows, now, env.cfg.retryBatchLimit, j);
    LeaseOfActive(w, i);
    RetryHappens(env, Swept(env, w), now, j);
    TickStages(env, w);
    TickFair(env, w);
    ActiveUser(w, w.rows[i].recipient);
  }

  lemma InvSortedRows(w: World)
    requires Inv(w)
    ensures Sorted(w.rows)
  {}

  lemma LeaseOfActive(w: World, i: nat)
    requires Inv(w) && i < |w.rows| && w.rows[i].state == InFlight && w.rows[i].recipient in w.coord.active
    ensures w.rows[i].leaseOwner == w.coord.active[w.rows[i].recipient]
  {}

  /**
    A tick leaves alone what is not its business: a row in flight that is neither
    due nor overdue, and whose recipient is offline or whose lease outlasts every
    clock reading of the tick, is in the table as it was.
  */
  lemma TickLeavesRunning(env: Env, w: World, i: nat)
    requires Reachable(env, w) && i < |w.rows| && w.rows[i].state == InFlight
    requires !Due(w.rows[i], env.clock(w.clockReads)) && !Overdue(w.rows[i], env.clock(w.clockReads))
    requires || w.rows[i].recipient !in w.coord.active
             || forall n :: w.clockReads <= n < Step(env, w, OpTick).clockReads ==> w.rows[i].leaseUntil > env.clock(n)
    ensures w.rows[i] in Step(env, w, OpTick).rows
  {
    hide Deliveries;
    hide Ledger.Exact;
    hide Swept;
    hide Aged;
    hide RetryScan;
    hide Tick;
    hide OverdueCount;
    ReachableInv(env, w);
    hide Reachable;
    var now, d := env.clock(w.clockReads), w.rows[i];
    AgedRow(env, w, i);
    SweptRow(env, w, d);
    StagesInv(env, w);
    InvOwnSessions(Swept(env, w));
    hide OwnSessions;
    TickStages(env, w);
    var j := RowIn(Swept(env, w).rows, d);
    ScanKeeps(env, Swept(env, w), now, j);
  }
}
