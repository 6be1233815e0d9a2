/**
  Every operation keeps the invariant, so every run does; the promises of the
  reliable-messaging core follow for all runs, with restarts between operations.
*/
module ProtocolRuns {
  import opened Domain
  import opened Protocol
  import opened ProtocolSafety
  import Ledger

  // ---- Claiming ----

  lemma ClaimConversationInv(env: Env, w: World, session: Session, conv: nat, now: int)
    requires env.cfg.leaseMs > 0 && Inv(w) && MayClaim(w.coord, session)
    ensures var w' := ClaimConversation(env, w, session, conv, now).0; Inv(w') && Claims(w, w')
    decreases |ClaimableIn(w.rows, session.user, conv, now)|
  {
    hide Deliveries;
    hide Ledger.Exact;
    var h := Head(w, session.user, conv);
    if h >= 0 && Claimable(w.rows[h], now) && w.rows[h].messageId in w.ledger.messages {
      TriedInv(env, w, session, conv, now);
      var w1 := Tried(env, w, session, h, now);
      if env.answers(|w.log|) == Accepted {
        TriedShrinks(env, w, session, h, now, conv);
        ClaimConversationInv(env, w1, session, conv, now);
        ClaimsTrans(w, w1, ClaimConversation(env, w1, session, conv, now).0);
      }
    }
  }

  lemma ClaimConversationsInv(env: Env, w: World, session: Session, convs: seq<nat>, now: int)
    requires env.cfg.leaseMs > 0 && Inv(w) && MayClaim(w.coord, session)
    ensures var w' := ClaimConversations(env, w, session, convs, now); Inv(w') && Claims(w, w')
    decreases |convs|
  {
    if convs != [] {
      var (w1, stopped) := ClaimConversation(env, w, session, convs[0], now);
      ClaimConversationInv(env, w, session, convs[0], now);
      if !stopped {
        ClaimConversationsInv(env, w1, session, convs[1..], now);
        ClaimsTrans(w, w1, ClaimConversations(env, w1, session, convs[1..], now));
      }
    }
  }

  lemma ClockInv(w: World)
    requires Inv(w)
    ensures var w' := w.(clockReads := w.clockReads + 1); Inv(w') && Claims(w, w')
  {}

  lemma ClaimForInv(env: Env, w: World, session: Session)
    requires env.cfg.leaseMs > 0 && Inv(w) && MayClaim(w.coord, session)
    ensures Inv(ClaimFor(env, w, session)) && Claims(w, ClaimFor(env, w, session))
  {
    hide Deliveries;
    hide Ledger.Exact;
    if session !in w.coord.paused {
      var w1 := w.(clockReads := w.clockReads + 1);
      ClockInv(w);
      var convs := OpenConversations(w.rows, session.user, |w.rows|);
      ClaimConversationsInv(env, w1, session, convs, env.clock(w.clockReads));
      ClaimsTrans(w, w1, ClaimFor(env, w, session));
    }
  }

  lemma ClaimEachInv(env: Env, w: World, sessions: seq<Session>)
    requires env.cfg.leaseMs > 0 && Inv(w)
    requires forall i :: 0 <= i < |sessions| ==> MayClaim(w.coord, sessions[i])
    ensures Inv(ClaimEach(env, w, sessions)) && Claims(w, ClaimEach(env, w, sessions))
    decreases |sessions|
  {
    if sessions != [] {
      var w1 := ClaimFor(env, w, sessions[0]);
      ClaimForInv(env, w, sessions[0]);
      ClaimEachInv(env, w1, sessions[1..]);
      ClaimsTrans(w, w1, ClaimEach(env, w, sessions));
    }
  }

  lemma OnAcceptedInv(env: Env, w: World, recipients: seq<nat>)
    requires env.cfg.leaseMs > 0 && Inv(w)
    ensures Inv(OnAccepted(env, w, recipients)) && Claims(w, OnAccepted(env, w, recipients))
    decreases |recipients|
  {
    if recipients != [] {
      var u := recipients[0];
      if u in w.coord.active {
        var w1 := ClaimFor(env, w, w.coord.active[u]);
        ClaimForInv(env, w, w.coord.active[u]);
        OnAcceptedInv(env, w1, recipients[1..]);
        ClaimsTrans(w, w1, OnAccepted(env, w, recipients));
      } else {
        OnAcceptedInv(env, w, recipients[1..]);
      }
    }
  }

  // ---- Releasing ----

  /** Fencing touches exactly the user's rows leased to anyone but this session of this process. */
  lemma FenceFromRows(env: Env, w: World, session: Session, i: nat)
    requires i <= |w.rows|
    ensures var w' := FenceFrom(env, w, session, i);
      && w' == w.(rows := w'.rows, recorder := w'.recorder) && |w'.rows| == |w.rows|
      && forall j :: 0 <= j < |w.rows| ==>
           w'.rows[j] == if j >= i && Stale(w, w.rows[j], session)
                         then Unleased(Filled(w.ledger.messages, w.rows[j])) else w.rows[j]
    decreases |w.rows| - i
  {
    if i < |w.rows| {
      var w1 := if Stale(w, w.rows[i], session)
                then ReleaseRow(env, w, i, Filled(w.ledger.messages, w.rows[i])) else w;
      FenceFromRows(env, w1, session, i + 1);
    }
  }

  lemma CloseFromRows(env: Env, w: World, session: Session, i: nat)
    requires i <= |w.rows|
    ensures var w' := CloseFrom(env, w, session, i);
      && w' == w.(rows := w'.rows, recorder := w'.recorder) && |w'.rows| == |w.rows|
      && forall j :: 0 <= j < |w.rows| ==>
           w'.rows[j] == if j >= i && HeldBy(w.rows[j], session)
                         then Unleased(Filled(w.ledger.messages, w.rows[j])) else w.rows[j]
    decreases |w.rows| - i
  {
    if i < |w.rows| {
      var w1 := if HeldBy(w.rows[i], session)
                then ReleaseRow(env, w, i, Filled(w.ledger.messages, w.rows[i])) else w;
      CloseFromRows(env, w1, session, i + 1);
    }
  }

  lemma RollBackRows(env: Env, w: World, due: seq<nat>)
    requires forall k :: 0 <= k < |due| ==> due[k] < |w.rows| && w.rows[due[k]].state == InFlight
    requires forall k, m :: 0 <= k < m < |due| ==> due[k] < due[m]
    ensures var w' := RollBack(env, w, due);
      && w' == w.(rows := w'.rows, recorder := w'.recorder) && |w'.rows| == |w.rows|
      && forall j :: 0 <= j < |w.rows| ==>
           w'.rows[j] == if j in due && Retriable(w.coord, w.rows[j]) then Unleased(w.rows[j]) else w.rows[j]
    decreases |due|
  {
    if due != [] {
      var w1 := if Retriable(w.coord, w.rows[due[0]]) then ReleaseRow(env, w, due[0], w.rows[due[0]]) else w;
      RollBackRows(env, w1, due[1..]);
      assert forall j: nat :: j in due <==> j == due[0] || j in due[1..];
    }
  }

  lemma RetriersActive(c: Coordinator, due: seq<Delivery>, i: nat)
    requires i < |Retriers(c, due)|
    ensures var s := Retriers(c, due)[i]; exists u :: u in c.active && c.active[u] == s
    decreases |due|
  {
    var last, s := due[|due| - 1], Retriers(c, due[..|due| - 1]);
    if Retriable(c, last) {
      InsertSessionMembers(s, c.active[last.recipient]);
    }
    if Retriers(c, due)[i] in s {
      var j :| 0 <= j < |s| && s[j] == Retriers(c, due)[i];
      RetriersActive(c, due[..|due| - 1], j);
    }
  }

  lemma InsertSessionMembers(s: seq<Session>, x: Session)
    ensures forall y :: y in InsertSession(s, x) ==> y == x || y in s
  {}

  // ---- Evolution of a world ----

  /** What becomes of a row: kept under its key, or gone by a recorded cleanup. */
  ghost predicate RowFate(d: Delivery, w: World) {
    var j := IndexOf(w.rows, d.Id());
    if j >= 0 then RowKept(d, w.rows[j]) else WasCleaned(w.cleaned, d.Id())
  }

  /** History only grows, messages stay, and every row is kept or cleaned up. */
  ghost predicate Evolves(w: World, w': World) {
    && (forall i :: 0 <= i < |w.rows| ==> RowFate(w.rows[i], w'))
    && w.log <= w'.log && w.cleaned <= w'.cleaned && w.acks <= w'.acks
    && (forall id :: id in w.ledger.messages ==>
          id in w'.ledger.messages && w'.ledger.messages[id] == w.ledger.messages[id])
  }

  lemma KeptEvolves(w: World, w': World)
    requires Sorted(w'.rows) && RowsKept(w.rows, w'.rows) && w'.ledger == w.ledger
    requires w.log <= w'.log && w.cleaned <= w'.cleaned && w.acks <= w'.acks
    ensures Evolves(w, w')
  {
    forall i | 0 <= i < |w.rows| ensures RowFate(w.rows[i], w') {
      assert RowKept(w.rows[i], w'.rows[i]);
      SortedIndex(w'.rows, i);
    }
  }

  lemma FateTrans(d: Delivery, b: World, c: World)
    requires RowFate(d, b) && Evolves(b, c) && Owed(c.rows, c.cleaned, c.ledger.messages)
    ensures RowFate(d, c)
  {
    var j := IndexOf(b.rows, d.Id());
    if j >= 0 {
      assert RowFate(b.rows[j], c);
    } else {
      var r :| 0 <= r < |b.cleaned| && b.cleaned[r].row.Id() == d.Id();
      assert c.cleaned[r] == b.cleaned[r];
    }
  }

  lemma EvolvesTrans(a: World, b: World, c: World)
    requires Evolves(a, b) && Evolves(b, c) && Owed(c.rows, c.cleaned, c.ledger.messages)
    ensures Evolves(a, c)
  {
    forall i | 0 <= i < |a.rows| ensures RowFate(a.rows[i], c) {
      FateTrans(a.rows[i], b, c);
    }
  }

  lemma ClaimsEvolve(w: World, w': World)
    requires Claims(w, w') && Inv(w')
    ensures Evolves(w, w')
  {
    KeptEvolves(w, w');
  }

  /** A softened table followed by claims: the shape of every session operation. */
  lemma SoftenThenClaim(w: World, w1: World, w2: World)
    requires Inv(w) && Inv(w1) && Inv(w2) && Claims(w1, w2)
    requires RowsKept(w.rows, w1.rows) && w1.ledger == w.ledger && w1.log == w.log && w1.cleaned == w.cleaned
    requires w.acks <= w1.acks
    ensures Evolves(w, w2)
  {
    hide Ledger.Exact;
    RowsKeptTrans(w.rows, w1.rows, w2.rows);
    KeptEvolves(w, w2);
  }

  // ---- Session operations ----

  lemma UnleasedSoftens(rows: seq<Delivery>, rows': seq<Delivery>, acks: set<Key>)
    requires |rows'| == |rows|
    requires forall j :: 0 <= j < |rows| && rows'[j] != rows[j] ==>
               rows[j].state == InFlight && exists s :: rows'[j] == Unleased(rows[j].(sequence := s))
    ensures Softened(rows, rows', acks)
  {}

  lemma FencedForSession(w: World, w': World, session: Session)
    requires Leased(w.rows, w.ledger.messages) && Fenced(w.rows, w.coord) && |w'.rows| == |w.rows|
    requires forall j :: 0 <= j < |w.rows| ==>
               w'.rows[j] == if Stale(w, w.rows[j], session)
                             then Unleased(Filled(w.ledger.messages, w.rows[j])) else w.rows[j]
    requires w'.coord == w.coord.(observed := w.coord.observed[session.user := session.generation],
                                  active := w.coord.active[session.user := session])
    ensures Fenced(w'.rows, w'.coord)
  {}

  /** After a login every lease of the user is the new session's, under this process's boot id. */
  lemma SessionAvailableInv(env: Env, w: World, session: Session)
    requires env.cfg.leaseMs > 0 && Inv(w)
    ensures var w' := SessionAvailable(env, w, session); Inv(w') && Evolves(w, w') && w'.acks == w.acks
  {
    hide Ledger.Exact;
    if Outdated(w.coord, session) {
      KeptEvolves(w, w);
    } else {
      var w1 := w.(coord := w.coord.(observed := w.coord.observed[session.user := session.generation]));
      var w2 := FenceFrom(env, w1, session, 0);
      FenceFromRows(env, w1, session, 0);
      var w3 := w2.(coord := w2.coord.(active := w2.coord.active[session.user := session]));
      FenceStep(w, w1, w3, session);
      ClaimForInv(env, w3, session);
      SoftenThenClaim(w, w3, ClaimFor(env, w3, session));
    }
  }

  lemma FenceStep(w: World, w1: World, w3: World, session: Session)
    requires Inv(w) && w1 == w.(coord := w.coord.(observed := w.coord.observed[session.user := session.generation]))
    requires |w3.rows| == |w.rows|
    requires forall j :: 0 <= j < |w.rows| ==>
               w3.rows[j] == if Stale(w1, w.rows[j], session)
                             then Unleased(Filled(w.ledger.messages, w.rows[j])) else w.rows[j]
    requires w3.coord == w1.coord.(active := w1.coord.active[session.user := session])
    requires w3.ledger == w.ledger && w3.log == w.log && w3.cleaned == w.cleaned && w3.acks == w.acks
    ensures Inv(w3) && RowsKept(w.rows, w3.rows)
  {
    hide Ledger.Exact;
    assert forall j :: 0 <= j < |w.rows| ==> Stale(w1, w.rows[j], session) == Stale(w, w.rows[j], session);
    UnleasedSoftens(w.rows, w3.rows, w.acks);
    FencedForSession(w, w3, session);
    SoftenedInv(w, w3);
  }

  lemma CloseStep(env: Env, w: World, w1: World, session: Session)
    requires Inv(w) && w1 == w.(coord := w.coord.(paused := w.coord.paused - {session}, active := w1.coord.active))
    requires w1.coord.active == w.coord.active || w1.coord.active == w.coord.active - {session.user}
    ensures var w2 := CloseFrom(env, w1, session, 0); Inv(w2) && RowsKept(w.rows, w2.rows)
    ensures var w2 := CloseFrom(env, w1, session, 0); w2 == w1.(rows := w2.rows, recorder := w2.recorder)
  {
    hide Ledger.Exact;
    var w2 := CloseFrom(env, w1, session, 0);
    CloseFromRows(env, w1, session, 0);
    UnleasedSoftens(w.rows, w2.rows, w.acks);
    SoftenedInv(w, w2);
  }

  lemma SessionClosedInv(env: Env, w: World, session: Session)
    requires env.cfg.leaseMs > 0 && Inv(w)
    ensures var w' := SessionClosed(env, w, session); Inv(w') && Evolves(w, w') && w'.acks == w.acks
  {
    hide Ledger.Exact;
    hide Evolves;
    var mine := session.user in w.coord.active && w.coord.active[session.user] == session;
    var w1 := w.(coord := w.coord.(paused := w.coord.paused - {session},
                                   active := if mine then w.coord.active - {session.user} else w.coord.active));
    var w2 := CloseFrom(env, w1, session, 0);
    CloseStep(env, w, w1, session);
    if session.user in w1.coord.active {
      ClaimForInv(env, w2, w1.coord.active[session.user]);
      SoftenThenClaim(w, w2, ClaimFor(env, w2, w1.coord.active[session.user]));
    } else {
      KeptEvolves(w, w2);
    }
  }

  lemma ResumeInv(env: Env, w: World, session: Session)
    requires env.cfg.leaseMs > 0 && Inv(w)
    ensures var w' := Resume(env, w, session); Inv(w') && Evolves(w, w') && w'.acks == w.acks
  {
    hide Ledger.Exact;
    KeptEvolves(w, w);
    if session.user in w.coord.active && w.coord.active[session.user] == session && !Outdated(w.coord, session) {
      var w1 := w.(coord := w.coord.(paused := w.coord.paused - {session}));
      assert Inv(w1);
      ClaimForInv(env, w1, session);
      SoftenThenClaim(w, w1, ClaimFor(env, w1, session));
    }
  }

  lemma AckStep(env: Env, w: World, i: nat)
    requires Inv(w) && i < |w.rows| && w.rows[i].state != Acknowledged
    ensures Inv(AckRow(env, w, i)) && RowsKept(w.rows, AckRow(env, w, i).rows)
  {
    hide Sorted;
    hide Filed;
    hide Leased;
    hide HeadOfLine;
    hide LogFiled;
    hide LogOrdered;
    hide LogBehind;
    hide Counted;
    hide LogNumbered;
    hide LegacyOnce;
    hide Attributed;
    hide Owed;
    hide Ledger.Exact;
    var w1 := AckRow(env, w, i);
    assert Softened(w.rows, w1.rows, w1.acks);
    SoftenedInv(w, w1);
  }

  lemma AcknowledgeInv(env: Env, w: World, acker: Session, messageId: nat)
    requires env.cfg.leaseMs > 0 && Inv(w)
    ensures var w' := Acknowledge(env, w, acker, messageId); Inv(w') && Evolves(w, w')
    ensures Acknowledge(env, w, acker, messageId).acks <= w.acks + {Key(messageId, acker.user)}
  {
    hide Ledger.Exact;
    hide Deliveries;
    hide Evolves;
    KeptEvolvesSelf(w);
    if AckResultOf(w, acker, messageId) == AckAcknowledged {
      var i := IndexOf(w.rows, Key(messageId, acker.user));
      var w1 := AckRow(env, w, i);
      AckStep(env, w, i);
      var w2 := ClaimFor(env, w1, acker);
      ClaimForInv(env, w1, acker);
      SoftenThenClaim(w, w1, w2);
      RecorderInv(w, w2, Acknowledge(env, w, acker, messageId));
    }
  }

  lemma RecorderInv(w: World, w1: World, w2: World)
    requires Inv(w1) && Evolves(w, w1) && w2 == w1.(recorder := w2.recorder)
    ensures Inv(w2) && Evolves(w, w2)
  {
    forall i | 0 <= i < |w.rows| ensures RowFate(w.rows[i], w2) {
      assert RowFate(w.rows[i], w1);
    }
  }

  // ---- The tick ----

  lemma RetryScanInv(env: Env, w: World, now: int)
    requires env.cfg.leaseMs > 0 && Inv(w)
    ensures Inv(RetryScan(env, w, now)) && Evolves(w, RetryScan(env, w, now)) && RetryScan(env, w, now).acks == w.acks
  {
    hide Ledger.Exact;
    hide Deliveries;
    hide Evolves;
    hide Retriers;
    hide DueFrom;
    hide ClaimEach;
    var w0 := w.(coord := w.coord.(tickNexts := []));
    var due := DueFrom(w.rows, 0, now, env.cfg.retryBatchLimit);
    DueInRange(w.rows, 0, now, env.cfg.retryBatchLimit);
    var w1 := RollBack(env, w0, due);
    RollBackRows(env, w0, due);
    RollBackStep(w, w1);
    var sessions := Retriers(w0.coord, RowsAt(w.rows, due));
    RetriersMayClaim(w, w0.coord, RowsAt(w.rows, due));
    ClaimEachInv(env, w1, sessions);
    SoftenThenClaim(w, w1, ClaimEach(env, w1, sessions));
  }

  lemma RetriersMayClaim(w: World, c: Coordinator, due: seq<Delivery>)
    requires Deliveries(w) && c == w.coord.(tickNexts := c.tickNexts)
    ensures forall i :: 0 <= i < |Retriers(c, due)| ==> MayClaim(c, Retriers(c, due)[i])
  {
    assert Fenced(w.rows, w.coord);
    forall i | 0 <= i < |Retriers(c, due)| ensures MayClaim(c, Retriers(c, due)[i]) {
      RetriersActive(c, due, i);
    }
  }

  lemma RollBackStep(w: World, w1: World)
    requires Inv(w) && |w1.rows| == |w.rows|
    requires forall j :: 0 <= j < |w.rows| && w1.rows[j] != w.rows[j] ==>
               w.rows[j].state == InFlight && w1.rows[j] == Unleased(w.rows[j])
    requires w1.ledger == w.ledger && w1.log == w.log && w1.cleaned == w.cleaned && w1.acks == w.acks
    requires w1.coord == w.coord.(tickNexts := w1.coord.tickNexts)
    ensures Inv(w1) && RowsKept(w.rows, w1.rows)
  {
    hide Ledger.Exact;
    forall j | 0 <= j < |w.rows| && w1.rows[j] != w.rows[j]
      ensures exists s :: w1.rows[j] == Unleased(w.rows[j].(sequence := s))
    {
      assert w1.rows[j] == Unleased(w.rows[j].(sequence := w.rows[j].sequence));
    }
    UnleasedSoftens(w.rows, w1.rows, w.acks);
    SoftenedInv(w, w1);
  }

  /** Expiry touches only open rows past their deadline. */
  lemma ExpireFromRows(rows: seq<Delivery>, i: nat, now: int, limit: nat)
    requires i <= |rows|
    ensures var rows' := ExpireFrom(rows, i, now, limit).0;
      && |rows'| == |rows|
      && forall j :: 0 <= j < |rows| && rows'[j] != rows[j] ==>
           j >= i && ExpiryDue(rows[j], now) && rows'[j] == rows[j].(state := Expired)
    decreases |rows| - i
  {}

  lemma ExpireOverdueInv(env: Env, w: World, now: int)
    requires Inv(w)
    ensures Inv(ExpireOverdue(env, w, now)) && Evolves(w, ExpireOverdue(env, w, now))
    ensures ExpireOverdue(env, w, now).acks == w.acks
  {
    hide Ledger.Exact;
    var w' := ExpireOverdue(env, w, now);
    ExpireFromRows(w.rows, 0, now, env.cfg.retryBatchLimit);
    assert Softened(w.rows, w'.rows, w'.acks);
    SoftenedInv(w, w');
    KeptEvolves(w, w');
  }

  function Without(rows: seq<Delivery>, i: nat): seq<Delivery>
    requires i < |rows|
  {
    rows[..i] + rows[i + 1..]
  }

  lemma WithoutTable(rows: seq<Delivery>, i: nat, m: map<nat, Message>)
    requires i < |rows| && Sorted(rows) && Filed(rows, m)
    ensures Sorted(Without(rows, i)) && Filed(Without(rows, i), m)
  {
    var less := Without(rows, i);
    assert forall j :: 0 <= j < |less| ==> less[j] == rows[if j < i then j else j + 1];
  }

  lemma WithoutIndex(rows: seq<Delivery>, i: nat, k: Key)
    requires i < |rows| && Sorted(rows)
    ensures var j, j' := IndexOf(rows, k), IndexOf(Without(rows, i), k);
      if k == rows[i].Id() then j' < 0 else (j >= 0 <==> j' >= 0) && (j >= 0 ==> Without(rows, i)[j'] == rows[j])
  {
    hide IndexOf;
    var less, j, j' := Without(rows, i), IndexOf(rows, k), IndexOf(Without(rows, i), k);
    assert forall n :: 0 <= n < |less| ==> less[n] == rows[if n < i then n else n + 1];
    if j' >= 0 {
      SortedIndex(rows, if j' < i then j' else j' + 1);
    }
    if j >= 0 && j != i {
      assert less[if j < i then j else j - 1] == rows[j];
    }
    SortedIndex(rows, i);
  }

  lemma WithoutLanes(rows: seq<Delivery>, i: nat, m: map<nat, Message>, c: Coordinator)
    requires i < |rows| && Leased(rows, m) && HeadOfLine(rows, m) && Fenced(rows, c)
    ensures var less := Without(rows, i); Leased(less, m) && HeadOfLine(less, m) && Fenced(less, c)
  {
    var less := Without(rows, i);
    assert forall j :: 0 <= j < |less| ==> less[j] == rows[if j < i then j else j + 1];
  }

  lemma WithoutLog(rows: seq<Delivery>, i: nat, m: map<nat, Message>, log: seq<Attempt>, acks: set<Key>)
    requires i < |rows| && LogBehind(log, rows, m) && Counted(rows, log) && LegacyOnce(rows, log, m)
    requires Attributed(rows, acks, m)
    ensures var less := Without(rows, i);
      LogBehind(log, less, m) && Counted(less, log) && LegacyOnce(less, log, m) && Attributed(less, acks, m)
  {
    var less := Without(rows, i);
    assert forall j :: 0 <= j < |less| ==> less[j] == rows[if j < i then j else j + 1];
  }

  lemma WithoutOwed(rows: seq<Delivery>, i: nat, m: map<nat, Message>, cleaned: seq<Removal>, r: Removal)
    requires i < |rows| && Sorted(rows) && Filed(rows, m) && Owed(rows, cleaned, m) && r.row == rows[i]
    requires AckedPast(r.row, r.ackedBefore) || ExpiredPast(r.row, r.expiredBefore)
    ensures Owed(Without(rows, i), cleaned + [r], m)
  {
    hide Sorted;
    hide IndexOf;
    hide AckedPast;
    hide ExpiredPast;
    var cleaned' := cleaned + [r];
    forall q | 0 <= q < |cleaned'| ensures IndexOf(Without(rows, i), cleaned'[q].row.Id()) < 0 {
      WithoutIndex(rows, i, cleaned'[q].row.Id());
    }
    assert cleaned'[|cleaned|].row.Id() == rows[i].Id();
    forall id, u | id in m && u in RecipientsFor(m[id].command)
      ensures IndexOf(Without(rows, i), Key(id, u)) >= 0 || WasCleaned(cleaned', Key(id, u))
    {
      WithoutIndex(rows, i, Key(id, u));
      if WasCleaned(cleaned, Key(id, u)) {
        var q :| 0 <= q < |cleaned| && cleaned[q].row.Id() == Key(id, u);
        assert cleaned'[q] == cleaned[q];
      }
    }
  }

  lemma WithoutInv(w: World, i: nat, r: Removal)
    requires i < |w.rows| && Inv(w) && r.row == w.rows[i]
    requires AckedPast(r.row, r.ackedBefore) || ExpiredPast(r.row, r.expiredBefore)
    ensures var w' := w.(rows := Without(w.rows, i), cleaned := w.cleaned + [r]); Inv(w') && Evolves(w, w')
  {
    hide Ledger.Exact;
    var m := w.ledger.messages;
    WithoutTable(w.rows, i, m);
    WithoutLanes(w.rows, i, m, w.coord);
    WithoutLog(w.rows, i, m, w.log, w.acks);
    WithoutOwed(w.rows, i, m, w.cleaned, r);
    WithoutEvolves(w, i, r);
  }

  lemma WithoutEvolves(w: World, i: nat, r: Removal)
    requires i < |w.rows| && Sorted(w.rows) && r.row == w.rows[i]
    ensures Evolves(w, w.(rows := Without(w.rows, i), cleaned := w.cleaned + [r]))
  {
    var w' := w.(rows := Without(w.rows, i), cleaned := w.cleaned + [r]);
    forall j | 0 <= j < |w.rows| ensures RowFate(w.rows[j], w') {
      SortedIndex(w.rows, j);
      SortedIndex(w.rows, i);
      WithoutIndex(w.rows, i, w.rows[j].Id());
      if j == i {
        assert w'.cleaned[|w.cleaned|].row.Id() == w.rows[i].Id();
      }
    }
  }

  lemma CleanFromInv(w: World, i: nat, ackedBefore: int, expiredBefore: int, a: nat, e: nat)
    requires i <= |w.rows| && Inv(w)
    ensures var (rows, gone) := CleanFrom(w.rows, i, ackedBefore, expiredBefore, a, e);
      var w' := w.(rows := rows, cleaned := w.cleaned + gone);
      Inv(w') && Evolves(w, w')
    decreases |w.rows| - i
  {
    hide Evolves;
    hide Deliveries;
    hide Ledger.Exact;
    if i == |w.rows| {
      assert w.cleaned + [] == w.cleaned;
      KeptEvolvesSelf(w);
    } else if (AckedPast(w.rows[i], ackedBefore) && a > 0) || (ExpiredPast(w.rows[i], expiredBefore) && e > 0) {
      var acked := AckedPast(w.rows[i], ackedBefore) && a > 0;
      var r := Removal(w.rows[i], ackedBefore, expiredBefore);
      var w1 := w.(rows := Without(w.rows, i), cleaned := w.cleaned + [r]);
      WithoutInv(w, i, r);
      var a', e' := if acked then a - 1 else a, if acked then e else e - 1;
      CleanFromInv(w1, i, ackedBefore, expiredBefore, a', e');
      var (rows, gone) := CleanFrom(w1.rows, i, ackedBefore, expiredBefore, a', e');
      assert w1.cleaned + gone == w.cleaned + ([r] + gone);
      InvOwed(w1.(rows := rows, cleaned := w1.cleaned + gone));
      EvolvesTrans(w, w1, w1.(rows := rows, cleaned := w1.cleaned + gone));
    } else {
      CleanFromInv(w, i + 1, ackedBefore, expiredBefore, a, e);
    }
  }

  lemma InvOwed(w: World)
    requires Inv(w)
    ensures Owed(w.rows, w.cleaned, w.ledger.messages) && Sorted(w.rows)
  {}

  lemma KeptEvolvesSelf(w: World)
    requires Inv(w)
    ensures Evolves(w, w)
  {
    KeptEvolves(w, w);
  }

  lemma CleanupInv(env: Env, w: World, now: int)
    requires Inv(w)
    ensures Inv(Cleanup(env, w, now)) && Evolves(w, Cleanup(env, w, now)) && Cleanup(env, w, now).acks == w.acks
  {
    hide Deliveries;
    hide Ledger.Exact;
    hide CleanFrom;
    hide Evolves;
    KeptEvolvesSelf(w);
    var cfg := env.cfg;
    CleanFromInv(w, 0, now - cfg.ackedRetentionMs, now - cfg.expiredRetentionMs, cfg.cleanupBatch, cfg.cleanupBatch);
    var ackedBefore, expiredBefore := now - cfg.ackedRetentionMs, now - cfg.expiredRetentionMs;
    var (rows, gone) := CleanFrom(w.rows, 0, ackedBefore, expiredBefore, cfg.cleanupBatch, cfg.cleanupBatch);
    CleanupStamp(w, w.(rows := rows, cleaned := w.cleaned + gone), now);
  }

  lemma CleanupStamp(w: World, w1: World, now: int)
    requires Inv(w1) && Evolves(w, w1)
    ensures Inv(w1.(lastCleanup := now)) && Evolves(w, w1.(lastCleanup := now))
  {
    forall i | 0 <= i < |w.rows| ensures RowFate(w.rows[i], w1.(lastCleanup := now)) {
      assert RowFate(w.rows[i], w1);
    }
  }

  lemma TickInv(env: Env, w: World)
    requires env.cfg.leaseMs > 0 && Inv(w)
    ensures Inv(Tick(env, w)) && Evolves(w, Tick(env, w)) && Tick(env, w).acks == w.acks
  {
    hide Deliveries;
    hide Ledger.Exact;
    hide Evolves;
    var now := env.clock(w.clockReads);
    var w0 := w.(clockReads := w.clockReads + 1);
    ClockInv(w);
    ClaimsEvolve(w, w0);
    var w1 := ExpireOverdue(env, w0, now);
    ExpireOverdueInv(env, w0, now);
    InvOwed(w1);
    EvolvesTrans(w, w0, w1);
    var w2 := Cleanup(env, w1, now);
    CleanupInv(env, w1, now);
    InvOwed(w2);
    EvolvesTrans(w, w1, w2);
    RetryScanInv(env, w2, now);
    InvOwed(RetryScan(env, w2, now));
    EvolvesTrans(w, w2, RetryScan(env, w2, now));
  }
}
