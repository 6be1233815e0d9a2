/**
  The metrics gauges against the delivery table: for a process that started on
  an empty ledger they are exact after every operation.
*/
module ProtocolMetrics {
  import opened Domain
  import opened Protocol
  import opened ProtocolSafety
  import opened ProtocolRuns
  import opened ProtocolAccept
  import opened ProtocolTheorems
  import Ledger
  import Recorder

  /** The open deliveries of the table and their states. */
  function Open(rows: seq<Delivery>): map<Key, DeliveryState> {
    if rows == [] then map[]
    else
      var rest := Open(rows[1..]);
      if rows[0].Live() then rest[rows[0].Id() := rows[0].state] else rest
  }

  function CountState(rows: seq<Delivery>, s: DeliveryState): nat {
    if rows == [] then 0 else (if rows[0].state == s then 1 else 0) + CountState(rows[1..], s)
  }

  lemma {:induction false} OpenAt(rows: seq<Delivery>, k: Key)
    requires Sorted(rows)
    ensures var i := IndexOf(rows, k);
      && (k in Open(rows) <==> i >= 0 && rows[i].Live())
      && (k in Open(rows) ==> Open(rows)[k] == rows[i].state)
  {
    if rows != [] {
      OpenAt(rows[1..], k);
      if rows[0].Id() == k {
        forall j | 0 <= j < |rows[1..]| ensures rows[1..][j].Id() != k {
          assert KeyLess(rows[0].Id(), rows[j + 1].Id());
        }
      }
    }
  }

  /** Changing one row changes the open deliveries at its key only. */
  lemma OpenUpdate(rows: seq<Delivery>, i: nat, d: Delivery)
    requires Sorted(rows) && i < |rows| && d.Id() == rows[i].Id()
    ensures Open(rows[i := d]) == if d.Live() then Open(rows)[d.Id() := d.state] else Open(rows) - {d.Id()}
    ensures d.Id() in Open(rows) <==> rows[i].Live()
    ensures rows[i].Live() ==> Open(rows)[d.Id()] == rows[i].state
  {
    var rows' := rows[i := d];
    assert Sorted(rows');
    forall k
      ensures k in Open(rows') <==> if k == d.Id() then d.Live() else k in Open(rows)
      ensures k in Open(rows') ==> Open(rows')[k] == if k == d.Id() then d.state else Open(rows)[k]
    {
      OpenAt(rows, k);
      OpenAt(rows', k);
      SameIndex(rows, rows', k);
    }
    OpenAt(rows, d.Id());
    SortedIndex(rows, i);
    SortedIndex(rows', i);
  }

  lemma SameIndex(rows: seq<Delivery>, rows': seq<Delivery>, k: Key)
    requires |rows| == |rows'| && forall j :: 0 <= j < |rows| ==> rows'[j].Id() == rows[j].Id()
    ensures IndexOf(rows', k) == IndexOf(rows, k)
  {
    if rows != [] {
      assert forall j :: 0 <= j < |rows[1..]| ==> rows'[1..][j].Id() == rows[1..][j].Id();
    }
  }

  /** The number of open keys in a state is the number of rows in it. */
  lemma {:induction false} HavingCounts(rows: seq<Delivery>, s: DeliveryState)
    requires Sorted(rows) && (s == Pending || s == InFlight)
    ensures |Recorder.Having(Open(rows), s)| == CountState(rows, s)
  {
    if rows != [] {
      var k := rows[0].Id();
      HavingCounts(rows[1..], s);
      OpenAt(rows[1..], k);
      assert k !in Open(rows[1..]) by {
        forall j | 0 <= j < |rows[1..]| ensures rows[1..][j].Id() != k {
          assert KeyLess(rows[0].Id(), rows[j + 1].Id());
        }
      }
      if rows[0].Live() {
        Recorder.HavingUpdate(Open(rows[1..]), k, rows[0].state, s);
      }
    }
  }

  /**
    The recorder mirrors the table, except that it has not been told yet of the
    deliveries in `lag`, which it still believes to be in the given state.
  */
  ghost predicate Gauged(w: World, lag: map<Key, DeliveryState>) {
    && lag.Keys !! Open(w.rows).Keys
    && Recorder.Mirrors(w.recorder, Open(w.rows) + lag)
  }

  lemma AttemptedMirrors(r: Recorder.State, open: map<Key, DeliveryState>, isRetry: bool)
    requires Recorder.Mirrors(r, open)
    ensures Recorder.Mirrors(Recorder.Attempted(r, isRetry), open)
  {}

  lemma ClaimedGauged(env: Env, w: World, h: nat, d: Delivery, lag: map<Key, DeliveryState>)
    requires Sorted(w.rows) && Gauged(w, lag) && h < |w.rows| && w.rows[h].Live() && d.Id() == w.rows[h].Id()
    requires d.state == if LegacyRow(w.ledger.messages, w.rows[h]) then Acknowledged else InFlight
    ensures Gauged(w.(rows := w.rows[h := d], recorder := ClaimMetrics(env, w, h)), lag)
  {
    hide Recorder.Mirrors;
    hide Recorder.Transition;
    hide Recorder.Finished;
    hide Sorted;
    var k := w.rows[h].Id();
    var open := Open(w.rows) + lag;
    OpenUpdate(w.rows, h, d);
    var r := Recorder.Attempted(w.recorder, w.rows[h].attempts + 1 > 1);
    AttemptedMirrors(w.recorder, open, w.rows[h].attempts + 1 > 1);
    Recorder.TransitionMirrors(env.metricsClock, r, open, k, InFlight);
    var r' := Recorder.Transition(env.metricsClock, r, k, w.rows[h].state, InFlight);
    if LegacyRow(w.ledger.messages, w.rows[h]) {
      Recorder.FinishedMirrors(env.metricsClock, r', open[k := InFlight], k, InFlight, Acknowledged);
      assert open[k := InFlight] - {k} == Open(w.rows[h := d]) + lag;
    } else {
      assert open[k := InFlight] == Open(w.rows[h := d]) + lag;
    }
  }

  lemma TriedGauged(env: Env, w: World, session: Session, h: nat, now: int, lag: map<Key, DeliveryState>)
    requires Sorted(w.rows) && Filed(w.rows, w.ledger.messages) && Gauged(w, lag) && h < |w.rows| && w.rows[h].Live()
    ensures Gauged(Tried(env, w, session, h, now), lag)
  {
    hide Recorder.Mirrors;
    hide ClaimMetrics;
    hide Sorted;
    if env.answers(|w.log|) == Accepted {
      ClaimedGauged(env, w, h, ClaimedRow(env, w, session, h, now), lag);
    }
  }

  lemma ReleaseGauged(env: Env, w: World, i: nat, d: Delivery, lag: map<Key, DeliveryState>)
    requires Sorted(w.rows) && Gauged(w, lag) && i < |w.rows| && w.rows[i].state == InFlight && d.Id() == w.rows[i].Id()
    ensures Gauged(ReleaseRow(env, w, i, d), lag)
  {
    hide Recorder.Mirrors;
    hide Recorder.Transition;
    OpenUpdate(w.rows, i, Unleased(d));
    var open := Open(w.rows) + lag;
    Recorder.TransitionMirrors(env.metricsClock, w.recorder, open, d.Id(), Pending);
    assert open[d.Id() := Pending] == Open(w.rows[i := Unleased(d)]) + lag;
  }

  lemma InvTable(w: World)
    requires Inv(w)
    ensures Sorted(w.rows) && Filed(w.rows, w.ledger.messages) && Fenced(w.rows, w.coord)
  {}

  lemma ClaimConversationGauged(env: Env, w: World, session: Session, conv: nat, now: int, lag: map<Key, DeliveryState>)
    requires env.cfg.leaseMs > 0 && Inv(w) && MayClaim(w.coord, session) && Gauged(w, lag)
    ensures Gauged(ClaimConversation(env, w, session, conv, now).0, lag)
    decreases |ClaimableIn(w.rows, session.user, conv, now)|
  {
    hide Ledger.Exact;
    hide Deliveries;
    hide Gauged;
    InvTable(w);
    var h := Head(w, session.user, conv);
    if h >= 0 && Claimable(w.rows[h], now) && w.rows[h].messageId in w.ledger.messages {
      TriedInv(env, w, session, conv, now);
      TriedGauged(env, w, session, h, now, lag);
      if env.answers(|w.log|) == Accepted {
        TriedShrinks(env, w, session, h, now, conv);
        ClaimConversationGauged(env, Tried(env, w, session, h, now), session, conv, now, lag);
      }
    }
  }

  lemma ClaimConversationsGauged(env: Env, w: World, session: Session, convs: seq<nat>, now: int,
                                 lag: map<Key, DeliveryState>)
    requires env.cfg.leaseMs > 0 && Inv(w) && MayClaim(w.coord, session) && Gauged(w, lag)
    ensures Gauged(ClaimConversations(env, w, session, convs, now), lag)
    decreases |convs|
  {
    hide Ledger.Exact;
    hide Deliveries;
    hide Gauged;
    if convs != [] {
      var (w1, stopped) := ClaimConversation(env, w, session, convs[0], now);
      ClaimConversationInv(env, w, session, convs[0], now);
      ClaimConversationGauged(env, w, session, convs[0], now, lag);
      if !stopped {
        ClaimConversationsGauged(env, w1, session, convs[1..], now, lag);
      }
    }
  }

  lemma ClaimForGauged(env: Env, w: World, session: Session, lag: map<Key, DeliveryState>)
    requires env.cfg.leaseMs > 0 && Inv(w) && MayClaim(w.coord, session) && Gauged(w, lag)
    ensures Gauged(ClaimFor(env, w, session), lag)
  {
    hide Ledger.Exact;
    hide Deliveries;
    if session !in w.coord.paused {
      var w1 := w.(clockReads := w.clockReads + 1);
      ClockInv(w);
      var convs := OpenConversations(w.rows, session.user, |w.rows|);
      ClaimConversationsGauged(env, w1, session, convs, env.clock(w.clockReads), lag);
    }
  }

  lemma ClaimEachGauged(env: Env, w: World, sessions: seq<Session>)
    requires env.cfg.leaseMs > 0 && Inv(w) && Gauged(w, map[])
    requires forall i :: 0 <= i < |sessions| ==> MayClaim(w.coord, sessions[i])
    ensures Gauged(ClaimEach(env, w, sessions), map[])
    decreases |sessions|
  {
    hide Ledger.Exact;
    hide Deliveries;
    hide Gauged;
    if sessions != [] {
      ClaimForInv(env, w, sessions[0]);
      ClaimForGauged(env, w, sessions[0], map[]);
      ClaimEachGauged(env, ClaimFor(env, w, sessions[0]), sessions[1..]);
    }
  }

  lemma OnAcceptedGauged(env: Env, w: World, recipients: seq<nat>)
    requires env.cfg.leaseMs > 0 && Inv(w) && Gauged(w, map[])
    ensures Gauged(OnAccepted(env, w, recipients), map[])
    decreases |recipients|
  {
    hide Ledger.Exact;
    hide Gauged;
    if recipients != [] {
      var u := recipients[0];
      if u in w.coord.active {
        ClaimForInv(env, w, w.coord.active[u]);
        ClaimForGauged(env, w, w.coord.active[u], map[]);
        OnAcceptedGauged(env, ClaimFor(env, w, w.coord.active[u]), recipients[1..]);
      } else {
        OnAcceptedGauged(env, w, recipients[1..]);
      }
    }
  }

  lemma FenceGauged(env: Env, w: World, session: Session, i: nat)
    requires i <= |w.rows| && Sorted(w.rows) && Gauged(w, map[])
    ensures Gauged(FenceFrom(env, w, session, i), map[])
    decreases |w.rows| - i
  {
    hide Gauged;
    if i < |w.rows| {
      if Stale(w, w.rows[i], session) {
        ReleaseGauged(env, w, i, Filled(w.ledger.messages, w.rows[i]), map[]);
        FenceGauged(env, ReleaseRow(env, w, i, Filled(w.ledger.messages, w.rows[i])), session, i + 1);
      } else {
        FenceGauged(env, w, session, i + 1);
      }
    }
  }

  lemma CloseGauged(env: Env, w: World, session: Session, i: nat)
    requires i <= |w.rows| && Sorted(w.rows) && Gauged(w, map[])
    ensures Gauged(CloseFrom(env, w, session, i), map[])
    decreases |w.rows| - i
  {
    hide Gauged;
    if i < |w.rows| {
      if HeldBy(w.rows[i], session) {
        ReleaseGauged(env, w, i, Filled(w.ledger.messages, w.rows[i]), map[]);
        CloseGauged(env, ReleaseRow(env, w, i, Filled(w.ledger.messages, w.rows[i])), session, i + 1);
      } else {
        CloseGauged(env, w, session, i + 1);
      }
    }
  }

  lemma RollBackGauged(env: Env, w: World, due: seq<nat>)
    requires Sorted(w.rows) && Gauged(w, map[])
    requires forall k :: 0 <= k < |due| ==> due[k] < |w.rows| && w.rows[due[k]].state == InFlight
    requires forall k, m :: 0 <= k < m < |due| ==> due[k] < due[m]
    ensures Gauged(RollBack(env, w, due), map[])
    decreases |due|
  {
    hide Gauged;
    if due != [] {
      if Retriable(w.coord, w.rows[due[0]]) {
        ReleaseGauged(env, w, due[0], w.rows[due[0]], map[]);
        RollBackGauged(env, ReleaseRow(env, w, due[0], w.rows[due[0]]), due[1..]);
      } else {
        RollBackGauged(env, w, due[1..]);
      }
    }
  }

  // ---- Session operations ----

  lemma SessionAvailableGauged(env: Env, w: World, session: Session)
    requires env.cfg.leaseMs > 0 && Inv(w) && Gauged(w, map[])
    ensures Gauged(SessionAvailable(env, w, session), map[])
  {
    hide Ledger.Exact;
    hide Deliveries;
    if !Outdated(w.coord, session) {
      InvTable(w);
      var w1 := w.(coord := w.coord.(observed := w.coord.observed[session.user := session.generation]));
      var w2 := FenceFrom(env, w1, session, 0);
      FenceFromRows(env, w1, session, 0);
      FenceGauged(env, w1, session, 0);
      var w3 := w2.(coord := w2.coord.(active := w2.coord.active[session.user := session]));
      FenceStep(w, w1, w3, session);
      ClaimForGauged(env, w3, session, map[]);
    }
  }

  lemma SessionClosedGauged(env: Env, w: World, session: Session)
    requires env.cfg.leaseMs > 0 && Inv(w) && Gauged(w, map[])
    ensures Gauged(SessionClosed(env, w, session), map[])
  {
    hide Ledger.Exact;
    hide Deliveries;
    InvTable(w);
    var mine := session.user in w.coord.active && w.coord.active[session.user] == session;
    var w1 := w.(coord := w.coord.(paused := w.coord.paused - {session},
                                   active := if mine then w.coord.active - {session.user} else w.coord.active));
    var w2 := CloseFrom(env, w1, session, 0);
    CloseGauged(env, w1, session, 0);
    CloseStep(env, w, w1, session);
    if session.user in w1.coord.active {
      ClaimForGauged(env, w2, w1.coord.active[session.user], map[]);
    }
  }

  lemma ResumeGauged(env: Env, w: World, session: Session)
    requires env.cfg.leaseMs > 0 && Inv(w) && Gauged(w, map[])
    ensures Gauged(Resume(env, w, session), map[])
  {
    hide Ledger.Exact;
    if session.user in w.coord.active && w.coord.active[session.user] == session && !Outdated(w.coord, session) {
      ClaimForGauged(env, w.(coord := w.coord.(paused := w.coord.paused - {session})), session, map[]);
    }
  }

  lemma AckRowGauged(env: Env, w: World, i: nat)
    requires Sorted(w.rows) && Gauged(w, map[]) && i < |w.rows| && w.rows[i].state != Acknowledged
    ensures Gauged(AckRow(env, w, i), if w.rows[i].Live() then map[w.rows[i].Id() := w.rows[i].state] else map[])
  {
    hide Recorder.Mirrors;
    var w1, k := AckRow(env, w, i), w.rows[i].Id();
    OpenUpdate(w.rows, i, w1.rows[i]);
    var lag := if w.rows[i].Live() then map[k := w.rows[i].state] else map[];
    assert Open(w1.rows) + lag == Open(w.rows) + map[];
  }

  /** The gauges catch up once the acknowledged delivery is reported, after the claim it released. */
  lemma AcknowledgeGauged(env: Env, w: World, acker: Session, messageId: nat)
    requires env.cfg.leaseMs > 0 && Inv(w) && Gauged(w, map[])
    ensures Gauged(Acknowledge(env, w, acker, messageId), map[])
  {
    hide Ledger.Exact;
    hide Deliveries;
    hide Recorder.Mirrors;
    hide Recorder.Finished;
    if AckResultOf(w, acker, messageId) == AckAcknowledged {
      InvTable(w);
      var k := Key(messageId, acker.user);
      var i := IndexOf(w.rows, k);
      var w1, from := AckRow(env, w, i), w.rows[i].state;
      var lag := if w.rows[i].Live() then map[k := from] else map[];
      AckRowGauged(env, w, i);
      AckStep(env, w, i);
      ClaimForInv(env, w1, acker);
      ClaimForGauged(env, w1, acker, lag);
      var w2 := ClaimFor(env, w1, acker);
      InvTable(w2);
      assert RowKept(w1.rows[i], w2.rows[i]);
      AckCatchUp(env, w2, i, lag, from);
    }
  }

  lemma AckCatchUp(env: Env, w: World, i: nat, lag: map<Key, DeliveryState>, from: DeliveryState)
    requires Sorted(w.rows) && i < |w.rows| && w.rows[i].state == Acknowledged && Gauged(w, lag)
    requires lag == map[w.rows[i].Id() := from] || lag == map[]
    ensures var r := Recorder.Finished(env.metricsClock, w.recorder, w.rows[i].Id(), from, Acknowledged);
      Gauged(w.(recorder := r), map[])
  {
    hide Recorder.Mirrors;
    hide Recorder.Finished;
    var k := w.rows[i].Id();
    OpenAt(w.rows, k);
    SortedIndex(w.rows, i);
    Recorder.FinishedMirrors(env.metricsClock, w.recorder, Open(w.rows) + lag, k, from, Acknowledged);
    assert (Open(w.rows) + lag) - {k} == Open(w.rows) + map[];
  }

  // ---- The tick ----

  ghost function Lag(list: seq<Expiry>): map<Key, DeliveryState> {
    if list == [] then map[] else Lag(list[1..])[list[0].key := list[0].from]
  }

  ghost predicate KeyFrom(rows: seq<Delivery>, i: nat, k: Key) {
    exists j :: i <= j < |rows| && rows[j].Id() == k
  }

  /** Each reported delivery is the key of a row from position i on, and none is reported twice. */
  ghost predicate Reports(rows: seq<Delivery>, i: nat, list: seq<Expiry>) {
    && (forall a, b :: 0 <= a < b < |list| ==> list[a].key != list[b].key)
    && (forall a :: 0 <= a < |list| ==> KeyFrom(rows, i, list[a].key))
  }

  lemma ReportsOneMore(rows: seq<Delivery>, i: nat, rest: seq<Expiry>, x: Expiry)
    requires Sorted(rows) && i < |rows| && Reports(rows, i + 1, rest) && x.key == rows[i].Id()
    ensures Reports(rows, i, [x] + rest) && x.key !in Lag(rest)
  {
    forall a | 0 <= a < |rest| ensures rest[a].key != x.key {
      assert KeyFrom(rows, i + 1, rest[a].key);
      var j :| i + 1 <= j < |rows| && rows[j].Id() == rest[a].key;
      assert KeyLess(rows[i].Id(), rows[j].Id());
    }
    LagKeys(rest);
    var list := [x] + rest;
    forall a | 0 <= a < |list| ensures KeyFrom(rows, i, list[a].key) {
      if a == 0 {
        assert rows[i].Id() == list[0].key;
      } else {
        assert KeyFrom(rows, i + 1, rest[a - 1].key);
      }
    }
  }

  lemma ReportsSameKeys(rows: seq<Delivery>, rows': seq<Delivery>, i: nat, list: seq<Expiry>)
    requires Reports(rows', i, list) && |rows| == |rows'|
    requires forall j :: 0 <= j < |rows| ==> rows'[j].Id() == rows[j].Id()
    ensures Reports(rows, i, list)
  {
    forall a | 0 <= a < |list| ensures KeyFrom(rows, i, list[a].key) {
      assert KeyFrom(rows', i, list[a].key);
      var j :| i <= j < |rows'| && rows'[j].Id() == list[a].key;
      assert rows[j].Id() == list[a].key;
    }
  }

  lemma ReportsFrom(rows: seq<Delivery>, i: nat, list: seq<Expiry>)
    requires Reports(rows, i + 1, list)
    ensures Reports(rows, i, list)
  {
    forall a | 0 <= a < |list| ensures KeyFrom(rows, i, list[a].key) {
      assert KeyFrom(rows, i + 1, list[a].key);
    }
  }

  /** The rows just expired are exactly what the recorder still has to be told. */
  lemma ExpireFromOpen(rows: seq<Delivery>, i: nat, now: int, limit: nat)
    requires i <= |rows| && Sorted(rows)
    ensures var (rows', list) := ExpireFrom(rows, i, now, limit);
      && Reports(rows, i, list) && Lag(list).Keys !! Open(rows').Keys && Open(rows') + Lag(list) == Open(rows)
    decreases |rows| - i
  {
    hide Reports;
    if i == |rows| || limit == 0 {
      assert Reports(rows, i, []) by { NoReports(rows, i); }
    } else if ExpiryDue(rows[i], now) {
      var rows1, x := rows[i := rows[i].(state := Expired)], Expiry(rows[i].Id(), rows[i].state);
      OpenUpdate(rows, i, rows1[i]);
      ExpireFromOpen(rows1, i + 1, now, limit - 1);
      var (rows', rest) := ExpireFrom(rows1, i + 1, now, limit - 1);
      ReportsSameKeys(rows, rows1, i + 1, rest);
      ReportsOneMore(rows, i, rest, x);
      assert ([x] + rest)[1..] == rest;
      assert Open(rows') + Lag([x] + rest) == Open(rows);
    } else {
      ExpireFromOpen(rows, i + 1, now, limit);
      ReportsFrom(rows, i, ExpireFrom(rows, i + 1, now, limit).1);
    }
  }

  lemma NoReports(rows: seq<Delivery>, i: nat)
    ensures Reports(rows, i, [])
  {}

  lemma LagKeys(list: seq<Expiry>)
    ensures forall k :: k in Lag(list) ==> exists a :: 0 <= a < |list| && list[a].key == k
  {
    if list != [] {
      LagKeys(list[1..]);
      forall k | k in Lag(list) ensures exists a :: 0 <= a < |list| && list[a].key == k {
        if k != list[0].key {
          assert k in Lag(list[1..]);
          var a :| 0 <= a < |list[1..]| && list[1..][a].key == k;
          assert list[a + 1].key == k;
        } else {
          assert list[0].key == k;
        }
      }
    }
  }

  lemma RecordExpiriesMirror(env: Env, r: Recorder.State, open: map<Key, DeliveryState>, list: seq<Expiry>)
    requires Lag(list).Keys !! open.Keys && Recorder.Mirrors(r, open + Lag(list))
    requires forall a, b :: 0 <= a < b < |list| ==> list[a].key != list[b].key
    ensures Recorder.Mirrors(RecordExpiries(env, r, list), open)
    decreases |list|
  {
    hide Recorder.Mirrors;
    hide Recorder.Finished;
    if list == [] {
      assert open + Lag(list) == open;
    } else {
      var k := list[0].key;
      LagKeys(list[1..]);
      Recorder.FinishedMirrors(env.metricsClock, r, open + Lag(list), k, list[0].from, Expired);
      assert (open + Lag(list)) - {k} == open + Lag(list[1..]);
      RecordExpiriesMirror(env, Recorder.Finished(env.metricsClock, r, k, list[0].from, Expired), open, list[1..]);
    }
  }

  lemma ExpireOverdueGauged(env: Env, w: World, now: int)
    requires Inv(w) && Gauged(w, map[])
    ensures Gauged(ExpireOverdue(env, w, now), map[])
  {
    hide Ledger.Exact;
    hide Deliveries;
    hide Recorder.Mirrors;
    hide ExpireFrom;
    InvTable(w);
    var (rows, list) := ExpireFrom(w.rows, 0, now, env.cfg.retryBatchLimit);
    ExpireFromOpen(w.rows, 0, now, env.cfg.retryBatchLimit);
    assert Open(w.rows) + map[] == Open(rows) + Lag(list);
    RecordExpiriesMirror(env, w.recorder, Open(rows), list);
    assert Open(rows) + map[] == Open(rows);
  }

  /** Cleanup removes finished rows only, so it leaves the open ones alone. */
  lemma CleanFromOpen(rows: seq<Delivery>, i: nat, ackedBefore: int, expiredBefore: int, a: nat, e: nat)
    requires i <= |rows| && Sorted(rows)
    ensures Open(CleanFrom(rows, i, ackedBefore, expiredBefore, a, e).0) == Open(rows)
    decreases |rows| - i
  {
    if i < |rows| {
      if (AckedPast(rows[i], ackedBefore) && a > 0) || (ExpiredPast(rows[i], expiredBefore) && e > 0) {
        var acked := AckedPast(rows[i], ackedBefore) && a > 0;
        WithoutOpen(rows, i);
        var a', e' := if acked then a - 1 else a, if acked then e else e - 1;
        CleanFromOpen(Without(rows, i), i, ackedBefore, expiredBefore, a', e');
      } else {
        CleanFromOpen(rows, i + 1, ackedBefore, expiredBefore, a, e);
      }
    }
  }

  lemma WithoutOpen(rows: seq<Delivery>, i: nat)
    requires i < |rows| && Sorted(rows) && !rows[i].Live()
    ensures Sorted(Without(rows, i)) && Open(Without(rows, i)) == Open(rows)
  {
    var less := Without(rows, i);
    assert forall j :: 0 <= j < |less| ==> less[j] == rows[if j < i then j else j + 1];
    SortedIndex(rows, i);
    forall k
      ensures k in Open(less) <==> k in Open(rows)
      ensures k in Open(less) ==> Open(less)[k] == Open(rows)[k]
    {
      OpenAt(rows, k);
      OpenAt(less, k);
      WithoutIndex(rows, i, k);
    }
  }

  lemma CleanupGauged(env: Env, w: World, now: int)
    requires Inv(w) && Gauged(w, map[])
    ensures Gauged(Cleanup(env, w, now), map[])
  {
    hide Ledger.Exact;
    hide Deliveries;
    hide CleanFrom;
    hide Recorder.Mirrors;
    InvTable(w);
    var cfg := env.cfg;
    var ackedBefore, expiredBefore := now - cfg.ackedRetentionMs, now - cfg.expiredRetentionMs;
    CleanFromOpen(w.rows, 0, ackedBefore, expiredBefore, cfg.cleanupBatch, cfg.cleanupBatch);
  }

  lemma RetryScanGauged(env: Env, w: World, now: int)
    requires env.cfg.leaseMs > 0 && Inv(w) && Gauged(w, map[])
    ensures Gauged(RetryScan(env, w, now), map[])
  {
    hide Ledger.Exact;
    hide Deliveries;
    hide Retriers;
    hide DueFrom;
    hide ClaimEach;
    hide Recorder.Mirrors;
    InvTable(w);
    var w0 := w.(coord := w.coord.(tickNexts := []));
    var due := DueFrom(w.rows, 0, now, env.cfg.retryBatchLimit);
    DueInRange(w.rows, 0, now, env.cfg.retryBatchLimit);
    RollBackRows(env, w0, due);
    RollBackGauged(env, w0, due);
    RollBackStep(w, RollBack(env, w0, due));
    RetriersMayClaim(w, w0.coord, RowsAt(w.rows, due));
    ClaimEachGauged(env, RollBack(env, w0, due), Retriers(w0.coord, RowsAt(w.rows, due)));
  }

  lemma TickGauged(env: Env, w: World)
    requires env.cfg.leaseMs > 0 && Inv(w) && Gauged(w, map[])
    ensures Gauged(Tick(env, w), map[])
  {
    hide Ledger.Exact;
    hide Deliveries;
    var now := env.clock(w.clockReads);
    var w0 := w.(clockReads := w.clockReads + 1);
    ClockInv(w);
    ExpireOverdueGauged(env, w0, now);
    ExpireOverdueInv(env, w0, now);
    CleanupGauged(env, ExpireOverdue(env, w0, now), now);
    CleanupInv(env, ExpireOverdue(env, w0, now), now);
    RetryScanGauged(env, Cleanup(env, ExpireOverdue(env, w0, now), now), now);
  }

  // ---- Accepting ----

  /** The table and the recorder are extended alike, repeated recipients included. */
  lemma InsertRowsMirror(rows: seq<Delivery>, r: Recorder.State, m: Message, recipients: seq<nat>, expiresAt: int)
    requires Sorted(rows) && Recorder.Mirrors(r, Open(rows))
    requires forall i :: 0 <= i < |rows| && rows[i].messageId == m.id ==> rows[i].state == Pending
    ensures Recorder.Mirrors(RecordCreated(r, m, recipients), Open(InsertRows(rows, m, recipients, expiresAt)))
    decreases |recipients|
  {
    hide Recorder.Mirrors;
    hide Recorder.Created;
    if recipients != [] {
      var d := NewRow(m, recipients[0], expiresAt);
      Recorder.CreatedMirrors(r, Open(rows), d.Id(), m.acceptedAt);
      InsertRowMembers(rows, d);
      InsertRowOpen(rows, d);
      var rows' := InsertRow(rows, d);
      forall i | 0 <= i < |rows'| && rows'[i].messageId == m.id ensures rows'[i].state == Pending {
        assert rows'[i] in rows';
      }
      InsertRowsMirror(rows', Recorder.Created(r, d.Id(), m.acceptedAt), m, recipients[1..], expiresAt);
    }
  }

  lemma {:induction false} InsertRowOpen(rows: seq<Delivery>, d: Delivery)
    requires Sorted(rows) && d.state == Pending
    requires forall i :: 0 <= i < |rows| && rows[i].Id() == d.Id() ==> rows[i].Live()
    ensures Open(InsertRow(rows, d)) == if d.Id() in Open(rows) then Open(rows) else Open(rows)[d.Id() := Pending]
  {
    OpenAt(rows, d.Id());
    if rows == [] || KeyLess(d.Id(), rows[0].Id()) {
      assert ([d] + rows)[1..] == rows;
      forall j | 0 <= j < |rows| ensures rows[j].Id() != d.Id() {
        if j > 0 { assert KeyLess(rows[0].Id(), rows[j].Id()); }
      }
    } else if d.Id() != rows[0].Id() {
      var t := InsertRow(rows[1..], d);
      assert ([rows[0]] + t)[1..] == t;
      InsertRowOpen(rows[1..], d);
    }
  }

  lemma EnrolGauged(env: Env, w: World, sender: nat, cmd: Command)
    requires Inv(w) && Gauged(w, map[]) && Ledger.AcceptKey(sender, cmd.clientId) !in w.ledger.accepted
    ensures Gauged(Enrol(env, w, sender, cmd), map[])
  {
    hide Open;
    hide RecipientsFor;
    hide Ledger.Accepted;
    hide Ledger.AcceptedMessage;
    hide Ledger.Exact;
    hide Deliveries;
    hide Recorder.Mirrors;
    hide InsertRows;
    hide RecordCreated;
    InvTable(w);
    AcceptedExtends(w.ledger, sender, cmd, env.clock(w.clockReads));
    var m := Ledger.AcceptedMessage(w.ledger, sender, cmd, env.clock(w.clockReads));
    assert Open(w.rows) + map[] == Open(w.rows);
    var expiresAt := env.clock(w.clockReads + 1) + env.cfg.messageRetentionMs;
    InsertRowsMirror(w.rows, w.recorder, m, RecipientsFor(cmd), expiresAt);
    var rows' := InsertRows(w.rows, m, RecipientsFor(cmd), expiresAt);
    assert Open(rows') + map[] == Open(rows');
  }

  lemma AcceptGauged(env: Env, w: World, sender: Session, cmd: Command)
    requires env.cfg.leaseMs > 0 && Inv(w) && Gauged(w, map[])
    ensures Gauged(Accept(env, w, sender, cmd), map[])
  {
    hide Ledger.Exact;
    hide Deliveries;
    hide Gauged;
    var k := Ledger.AcceptKey(sender.user, cmd.clientId);
    if k in w.ledger.accepted {
      OnAcceptedGauged(env, w, RecipientsFor(w.ledger.accepted[k].command));
    } else {
      EnrolInv(env, w, sender.user, cmd);
      EnrolGauged(env, w, sender.user, cmd);
      OnAcceptedGauged(env, Enrol(env, w, sender.user, cmd), RecipientsFor(cmd));
    }
  }

  // ---- Runs ----

  lemma StepGauged(env: Env, w: World, op: Op)
    requires env.cfg.leaseMs > 0 && Inv(w) && Gauged(w, map[]) && !op.OpRestart?
    ensures Gauged(Step(env, w, op), map[])
  {
    hide Ledger.Exact;
    hide Deliveries;
    hide Gauged;
    match op
    case OpAccept(sender, cmd) => AcceptGauged(env, w, sender, cmd);
    case OpAcknowledge(acker, id) => AcknowledgeGauged(env, w, acker, id);
    case OpAvailable(session) =>
      SessionAvailableInv(env, w, session);
      SessionAvailableGauged(env, w, session);
      TickGauged(env, SessionAvailable(env, w, session));
    case OpClosed(session) => SessionClosedGauged(env, w, session);
    case OpResume(session) => ResumeGauged(env, w, session);
    case OpWakeup(recipients) => OnAcceptedGauged(env, w, recipients);
    case OpTick => TickGauged(env, w);
  }

  lemma {:induction false} RunGauged(env: Env, boot: nat, ops: seq<Op>)
    requires env.cfg.leaseMs > 0 && forall n :: 0 <= n < |ops| ==> !ops[n].OpRestart?
    ensures var w := Run(env, Initial(boot), ops); Inv(w) && Gauged(w, map[])
  {
    hide Ledger.Exact;
    hide Deliveries;
    hide Step;
    InitialInv(boot);
    if ops != [] {
      var before := ops[..|ops| - 1];
      RunGauged(env, boot, before);
      StepInv(env, Run(env, Initial(boot), before), ops[|ops| - 1]);
      StepGauged(env, Run(env, Initial(boot), before), ops[|ops| - 1]);
    }
  }

  /**
    For a process started on an empty ledger, after every operation the pending
    and in-flight gauges are the exact numbers of such rows, the age index holds
    exactly the pending ones, and the four gauges add up to all ever created.
  */
  lemma GaugesAreExact(env: Env, boot: nat, ops: seq<Op>)
    requires env.cfg.leaseMs > 0 && forall n :: 0 <= n < |ops| ==> !ops[n].OpRestart?
    ensures var w := Run(env, Initial(boot), ops); var r := w.recorder;
      && r.pending == CountState(w.rows, Pending) && r.inflight == CountState(w.rows, InFlight)
      && (forall k :: (exists t :: Recorder.Aged(t, k) in r.pendingByAge)
                 <==> IndexOf(w.rows, k) >= 0 && w.rows[IndexOf(w.rows, k)].state == Pending)
      && r.created == r.pending + r.inflight + r.acked + r.expired
  {
    hide Ledger.Exact;
    var w := Run(env, Initial(boot), ops);
    RunGauged(env, boot, ops);
    assert Open(w.rows) + map[] == Open(w.rows);
    HavingCounts(w.rows, Pending);
    HavingCounts(w.rows, InFlight);
    forall k
      ensures (exists t :: Recorder.Aged(t, k) in w.recorder.pendingByAge)
         <==> IndexOf(w.rows, k) >= 0 && w.rows[IndexOf(w.rows, k)].state == Pending
    {
      OpenAt(w.rows, k);
      if k in Open(w.rows) && Open(w.rows)[k] == Pending {
        assert Recorder.Aged(w.recorder.tracked[k].since, k) in w.recorder.pendingByAge;
      }
    }
  }
}
