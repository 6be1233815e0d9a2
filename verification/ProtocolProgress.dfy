/**
  What the operations leave undone: a claim leaves no row claimable that the
  sink did not refuse, and the bounded scans take exactly what they should up
  to their limits.
*/
module ProtocolProgress {
  import opened Domain
  import opened Protocol
  import opened ProtocolSafety
  import opened ProtocolRuns
  import opened ProtocolTheorems
  import opened ProtocolClaims
  import Ledger

  // ---- Claims ----

  /** The sink closed an attempt of this delivery, counting from a position of the log. */
  ghost predicate Refused(log: seq<Attempt>, from: nat, k: Key) {
    exists e :: from <= e < |log| && log[e].Id() == k && log[e].answer == Closed
  }

  /** The first open row of the lane is under a running lease, or the sink just refused it. */
  ghost predicate LaneDone(w: World, user: nat, conv: nat, now: int, from: nat) {
    var h := Head(w, user, conv);
    h >= 0 && Free(w.rows[h], now) ==> Refused(w.log, from, w.rows[h].Id())
  }

  /** What a claim of one lane leaves alone. */
  ghost predicate OnlyLane(w: World, w': World, user: nat, conv: nat) {
    && |w'.rows| == |w.rows| && w.log <= w'.log && w'.ledger == w.ledger && w.coord.paused <= w'.coord.paused
    && (forall j :: 0 <= j < |w.rows| ==>
          && w'.rows[j].Id() == w.rows[j].Id() && w'.rows[j].conversation == w.rows[j].conversation
          && (w'.rows[j].Live() ==> w.rows[j].Live())
          && (!w.rows[j].InLane(user, conv) ==> w'.rows[j] == w.rows[j]))
  }

  lemma OnlyLaneTrans(a: World, b: World, c: World, user: nat, conv: nat)
    requires OnlyLane(a, b, user, conv) && OnlyLane(b, c, user, conv)
    ensures OnlyLane(a, c, user, conv)
  {}

  lemma OnlyLaneFiled(w: World, w': World, user: nat, conv: nat)
    requires OnlyLane(w, w', user, conv) && Filed(w.rows, w.ledger.messages)
    ensures Filed(w'.rows, w'.ledger.messages)
  {
    forall j | 0 <= j < |w'.rows|
      ensures w'.rows[j].messageId == w.rows[j].messageId && w'.rows[j].recipient == w.rows[j].recipient
    {
      assert w'.rows[j].Id() == w.rows[j].Id();
    }
  }

  lemma TriedOnlyLane(env: Env, w: World, session: Session, conv: nat, h: nat, now: int)
    requires h < |w.rows| && w.rows[h].messageId in w.ledger.messages && Candidate(w.rows[h], session.user, conv)
    ensures OnlyLane(w, Tried(env, w, session, h, now), session.user, conv)
  {
    hide ClaimMetrics;
  }

  lemma TriedLast(env: Env, w: World, session: Session, h: nat, now: int)
    requires h < |w.rows| && w.rows[h].messageId in w.ledger.messages
    ensures var w' := Tried(env, w, session, h, now); var a := env.answers(|w.log|);
      && |w'.log| == |w.log| + 1 && w'.log[|w.log|].Id() == w.rows[h].Id() && w'.log[|w.log|].answer == a
      && (a == Paused ==> session in w'.coord.paused) && (a != Accepted ==> w'.rows == w.rows) && w'.ledger == w.ledger
  {
    hide ClaimMetrics;
  }

  lemma {:induction false} ClaimConversationDone(env: Env, w: World, session: Session, conv: nat, now: int, from: nat)
    requires env.cfg.leaseMs > 0 && Filed(w.rows, w.ledger.messages) && from <= |w.log|
    ensures var (w', stopped) := ClaimConversation(env, w, session, conv, now);
      && OnlyLane(w, w', session.user, conv)
      && (if stopped then session in w'.coord.paused else LaneDone(w', session.user, conv, now, from))
    decreases |ClaimableIn(w.rows, session.user, conv, now)|
  {
    hide Tried;
    hide OnlyLane;
    var h := Head(w, session.user, conv);
    OnlyLaneSelf(w, session.user, conv);
    if h >= 0 && Claimable(w.rows[h], now) {
      HeadIsOpen(w, session.user, conv);
      var w1 := Tried(env, w, session, h, now);
      TriedOnlyLane(env, w, session, conv, h, now);
      TriedLast(env, w, session, h, now);
      match env.answers(|w.log|)
      case Accepted =>
        TriedShrinks(env, w, session, h, now, conv);
        OnlyLaneFiled(w, w1, session.user, conv);
        ClaimConversationDone(env, w1, session, conv, now, from);
        OnlyLaneTrans(w, w1, ClaimConversation(env, w1, session, conv, now).0, session.user, conv);
      case Paused =>
      case Closed =>
        SameRowsSameHead(w, w1, session.user, conv);
        assert w1.log[|w.log|].Id() == w1.rows[h].Id();
    }
  }

  lemma OnlyLaneSelf(w: World, user: nat, conv: nat)
    ensures OnlyLane(w, w, user, conv)
  {}

  lemma HeadIsOpen(w: World, user: nat, conv: nat)
    requires Filed(w.rows, w.ledger.messages) && Head(w, user, conv) >= 0
    ensures var h := Head(w, user, conv); Candidate(w.rows[h], user, conv) && w.rows[h].messageId in w.ledger.messages
  {}

  lemma SameRowsSameHead(w: World, w': World, user: nat, conv: nat)
    requires w'.rows == w.rows && w'.ledger == w.ledger
    ensures Head(w', user, conv) == Head(w, user, conv)
  {}

  /** A claim of another lane leaves a finished lane finished. */
  lemma OtherLaneDone(w: World, w': World, user: nat, conv: nat, other: nat, now: int, from: nat)
    requires OnlyLane(w, w', user, conv) && other != conv && LaneDone(w, user, other, now, from)
    ensures LaneDone(w', user, other, now, from)
  {
    forall j | 0 <= j < |w.rows|
      ensures Candidate(w'.rows[j], user, other) == Candidate(w.rows[j], user, other)
      ensures w.rows[j].InLane(user, other) ==> w'.rows[j] == w.rows[j]
      ensures || SequenceOf(w.ledger.messages, w'.rows[j]) == SequenceOf(w.ledger.messages, w.rows[j])
              || !Candidate(w.rows[j], user, other)
    {
      assert w'.rows[j].Id() == w.rows[j].Id();
    }
    LaneHeadSame(w.rows, w'.rows, w.ledger.messages, user, other, |w.rows|);
    var h := Head(w, user, other);
    if h >= 0 && Claimable(w'.rows[h], now) {
      assert w'.rows[h] == w.rows[h];
      var e :| from <= e < |w.log| && w.log[e].Id() == w.rows[h].Id() && w.log[e].answer == Closed;
      assert w'.log[e] == w.log[e];
    }
  }

  lemma {:induction false} LaneHeadSame(rows: seq<Delivery>, rows': seq<Delivery>, m: map<nat, Message>, user: nat,
                                        conv: nat, n: nat)
    requires n <= |rows| == |rows'|
    requires forall j :: 0 <= j < n ==> Candidate(rows'[j], user, conv) == Candidate(rows[j], user, conv)
    requires forall j :: 0 <= j < n && Candidate(rows[j], user, conv) ==> rows'[j] == rows[j]
    ensures HeadBelow(rows', m, user, conv, n) == HeadBelow(rows, m, user, conv, n)
  {
    if n > 0 {
      LaneHeadSame(rows, rows', m, user, conv, n - 1);
    }
  }

  /** No row changes its place, and none is opened. */
  ghost predicate RowsStay(w: World, w': World) {
    && |w'.rows| == |w.rows| && w.log <= w'.log && w'.ledger == w.ledger && w.coord.paused <= w'.coord.paused
    && (forall j :: 0 <= j < |w.rows| ==>
          && w'.rows[j].Id() == w.rows[j].Id() && w'.rows[j].conversation == w.rows[j].conversation
          && (w'.rows[j].Live() ==> w.rows[j].Live()))
  }

  lemma {:induction false} ClaimConversationsDone(env: Env, w: World, session: Session, convs: seq<nat>, now: int,
                                                  from: nat)
    requires env.cfg.leaseMs > 0 && Filed(w.rows, w.ledger.messages) && from <= |w.log|
    ensures var w' := ClaimConversations(env, w, session, convs, now);
      && RowsStay(w, w')
      && (forall c :: LaneDone(w, session.user, c, now, from) || c in convs ==>
            session in w'.coord.paused || LaneDone(w', session.user, c, now, from))
    decreases |convs|
  {
    hide ClaimConversation;
    hide OnlyLane;
    hide LaneDone;
    hide Filed;
    if convs != [] {
      var (w1, stopped) := ClaimConversation(env, w, session, convs[0], now);
      ClaimConversationDone(env, w, session, convs[0], now, from);
      LaneRowsStay(w, w1, session.user, convs[0]);
      if !stopped {
        OnlyLaneFiled(w, w1, session.user, convs[0]);
        ClaimConversationsDone(env, w1, session, convs[1..], now, from);
        var w' := ClaimConversations(env, w1, session, convs[1..], now);
        forall c | LaneDone(w, session.user, c, now, from) || c in convs
          ensures session in w'.coord.paused || LaneDone(w', session.user, c, now, from)
        {
          if c != convs[0] && LaneDone(w, session.user, c, now, from) {
            OtherLaneDone(w, w1, session.user, convs[0], c, now, from);
          }
        }
      }
    }
  }

  lemma LaneRowsStay(w: World, w': World, user: nat, conv: nat)
    requires OnlyLane(w, w', user, conv)
    ensures RowsStay(w, w')
  {}

  lemma {:induction false} InsertAscendingHolds(s: seq<nat>, x: nat)
    ensures x in InsertAscending(s, x) && forall y :: y in s ==> y in InsertAscending(s, x)
  {
    if s != [] && x > s[0] {
      InsertAscendingHolds(s[1..], x);
    }
  }

  lemma {:induction false} OpenConversationsComplete(rows: seq<Delivery>, user: nat, n: nat, j: nat)
    requires j < n <= |rows| && rows[j].recipient == user && rows[j].Live()
    ensures rows[j].conversation in OpenConversations(rows, user, n)
  {
    var s := OpenConversations(rows, user, n - 1);
    InsertAscendingHolds(s, rows[n - 1].conversation);
    if j < n - 1 {
      OpenConversationsComplete(rows, user, n - 1, j);
    }
  }

  /** Every lane is finished, or the session is paused. */
  ghost predicate NothingLeft(w: World, session: Session, now: int, from: nat) {
    session in w.coord.paused || forall conv :: LaneDone(w, session.user, conv, now, from)
  }

  /**
    A claim leaves nothing undone: afterwards the session is paused, or the first
    open row of each of the user's conversations is under a running lease or was
    just refused by a closing sink.
  */
  lemma ClaimLeavesNothing(env: Env, w: World, session: Session)
    requires env.cfg.leaseMs > 0 && Filed(w.rows, w.ledger.messages)
    ensures NothingLeft(ClaimFor(env, w, session), session, env.clock(w.clockReads), |w.log|)
  {
    hide ClaimConversations;
    hide OpenConversations;
    if session !in w.coord.paused {
      var user, now, w0 := session.user, env.clock(w.clockReads), w.(clockReads := w.clockReads + 1);
      var convs := OpenConversations(w.rows, user, |w.rows|);
      ClaimConversationsDone(env, w0, session, convs, now, |w.log|);
      forall conv
        ensures var w' := ClaimFor(env, w, session);
          session in w'.coord.paused || LaneDone(w', user, conv, now, |w.log|)
      {
        if conv !in convs {
          UnopenedLane(w0, user, conv, now);
        }
      }
    }
  }

  lemma UnopenedLane(w: World, user: nat, conv: nat, now: int)
    requires conv !in OpenConversations(w.rows, user, |w.rows|)
    ensures LaneDone(w, user, conv, now, |w.log|)
  {
    var h := Head(w, user, conv);
    if h >= 0 {
      OpenConversationsComplete(w.rows, user, |w.rows|, h);
    }
  }

  lemma InvFiled(w: World)
    requires Inv(w)
    ensures Filed(w.rows, w.ledger.messages)
  {}

  /** A login that is not outdated becomes the active session and claims all it can. */
  lemma LoginTakesOver(env: Env, w: World, session: Session)
    requires Reachable(env, w)
    requires session.user in w.coord.observed ==> w.coord.observed[session.user] <= session.generation
    ensures var w' := SessionAvailable(env, w, session);
      && session.user in w'.coord.active && w'.coord.active[session.user] == session
      && session.user in w'.coord.observed && w'.coord.observed[session.user] == session.generation
      && NothingLeft(w', session, env.clock(w.clockReads), |w.log|)
  {
    hide Deliveries;
    hide Ledger.Exact;
    hide ClaimFor;
    hide FenceFrom;
    hide NothingLeft;
    ReachableInv(env, w);
    var w1 := w.(coord := w.coord.(observed := w.coord.observed[session.user := session.generation]));
    var w2 := FenceFrom(env, w1, session, 0);
    InvFiled(w);
    hide Filed;
    FenceKeeps(env, w1, session, 0);
    var w3 := w2.(coord := w2.coord.(active := w2.coord.active[session.user := session]));
    ClaimLeavesNothing(env, w3, session);
    ClaimKeepsSessions(env, w3, session);
  }

  lemma {:induction false} FenceKeeps(env: Env, w: World, session: Session, i: nat)
    requires i <= |w.rows| && Filed(w.rows, w.ledger.messages)
    ensures var w' := FenceFrom(env, w, session, i);
      && w'.ledger == w.ledger && w'.log == w.log && w'.clockReads == w.clockReads && w'.coord == w.coord
      && Filed(w'.rows, w'.ledger.messages)
    decreases |w.rows| - i
  {
    if i < |w.rows| {
      FenceKeeps(env, ReleaseRow(env, w, i, Filled(w.ledger.messages, w.rows[i])), session, i + 1);
      FenceKeeps(env, w, session, i + 1);
    }
  }

  lemma {:induction false} ClaimConversationSessions(env: Env, w: World, session: Session, conv: nat, now: int)
    requires env.cfg.leaseMs > 0
    ensures var w' := ClaimConversation(env, w, session, conv, now).0;
      w'.coord.active == w.coord.active && w'.coord.observed == w.coord.observed
    decreases |ClaimableIn(w.rows, session.user, conv, now)|
  {
    hide ClaimMetrics;
    hide ClaimedRow;
    var h := Head(w, session.user, conv);
    if && h >= 0 && Claimable(w.rows[h], now) && w.rows[h].messageId in w.ledger.messages
       && env.answers(|w.log|) == Accepted {
      TriedShrinks(env, w, session, h, now, conv);
      ClaimConversationSessions(env, Tried(env, w, session, h, now), session, conv, now);
    }
  }

  lemma {:induction false} ClaimConversationsSessions(env: Env, w: World, session: Session, convs: seq<nat>, now: int)
    requires env.cfg.leaseMs > 0
    ensures var w' := ClaimConversations(env, w, session, convs, now);
      w'.coord.active == w.coord.active && w'.coord.observed == w.coord.observed
    decreases |convs|
  {
    hide ClaimConversation;
    if convs != [] {
      ClaimConversationSessions(env, w, session, convs[0], now);
      ClaimConversationsSessions(env, ClaimConversation(env, w, session, convs[0], now).0, session, convs[1..], now);
    }
  }

  lemma ClaimKeepsSessions(env: Env, w: World, session: Session)
    requires env.cfg.leaseMs > 0
    ensures var w' := ClaimFor(env, w, session);
      w'.coord.active == w.coord.active && w'.coord.observed == w.coord.observed
  {
    hide ClaimConversations;
    ClaimConversationsSessions(env, w.(clockReads := w.clockReads + 1), session,
                               OpenConversations(w.rows, session.user, |w.rows|), env.clock(w.clockReads));
  }

  /** An accepted ACK releases the next message: nothing stays claimable that the sink did not refuse. */
  lemma AckReleasesNext(env: Env, w: World, acker: Session, messageId: nat)
    requires Reachable(env, w) && AckResultOf(w, acker, messageId) == AckAcknowledged
    ensures NothingLeft(Acknowledge(env, w, acker, messageId), acker, env.clock(w.clockReads + 1), |w.log|)
  {
    hide Deliveries;
    hide Ledger.Exact;
    hide ClaimFor;
    hide NothingLeft;
    ReachableInv(env, w);
    var i := IndexOf(w.rows, Key(messageId, acker.user));
    AckStep(env, w, i);
    InvFiled(AckRow(env, w, i));
    var w1 := ClaimFor(env, AckRow(env, w, i), acker);
    ClaimLeavesNothing(env, AckRow(env, w, i), acker);
    RecorderApart(w1, Acknowledge(env, w, acker, messageId), acker, env.clock(w.clockReads + 1), |w.log|);
  }

  lemma RecorderApart(w: World, w': World, session: Session, now: int, from: nat)
    requires NothingLeft(w, session, now, from) && w' == w.(recorder := w'.recorder)
    ensures NothingLeft(w', session, now, from)
  {
    if session !in w.coord.paused {
      forall conv ensures LaneDone(w', session.user, conv, now, from) {
        assert LaneDone(w, session.user, conv, now, from);
        SameRowsSameHead(w, w', session.user, conv);
      }
    }
  }

  // ---- Retries happen ----

  ghost predicate Attempted(log: seq<Attempt>, from: nat, k: Key) {
    exists e :: from <= e < |log| && log[e].Id() == k
  }

  lemma AttemptedMore(log: seq<Attempt>, log': seq<Attempt>, from: nat, k: Key)
    requires Attempted(log, from, k) && log <= log'
    ensures Attempted(log', from, k)
  {
    var e :| from <= e < |log| && log[e].Id() == k;
    assert log'[e] == log[e];
  }

  /** The lane's first open row is waiting to be claimed. */
  ghost predicate Waits(w: World, user: nat, conv: nat, i: nat) {
    i < |w.rows| && Head(w, user, conv) == i && w.rows[i].state == Pending
  }

  lemma HeadAttempted(env: Env, w: World, session: Session, conv: nat, now: int, i: nat)
    requires env.cfg.leaseMs > 0 && Filed(w.rows, w.ledger.messages) && Waits(w, session.user, conv, i)
    ensures Attempted(ClaimConversation(env, w, session, conv, now).0.log, |w.log|, w.rows[i].Id())
  {
    hide Tried;
    hide ClaimConversation;
    TriedLast(env, w, session, i, now);
    FirstTurn(env, w, session, conv, now, i);
    var w1 := Tried(env, w, session, i, now);
    assert w1.log[|w.log|].Id() == w.rows[i].Id();
    AttemptedMore(w1.log, ClaimConversation(env, w, session, conv, now).0.log, |w.log|, w.rows[i].Id());
  }

  lemma FirstTurn(env: Env, w: World, session: Session, conv: nat, now: int, i: nat)
    requires env.cfg.leaseMs > 0 && Filed(w.rows, w.ledger.messages) && Waits(w, session.user, conv, i)
    ensures w.rows[i].messageId in w.ledger.messages
    ensures Tried(env, w, session, i, now).log <= ClaimConversation(env, w, session, conv, now).0.log
  {
    hide Tried;
    HeadIsOpen(w, session.user, conv);
    TriedOnlyLane(env, w, session, conv, i, now);
    if env.answers(|w.log|) == Accepted {
      var w1 := Tried(env, w, session, i, now);
      OnlyLaneFiled(w, w1, session.user, conv);
      ClaimConversationDone(env, w1, session, conv, now, |w1.log|);
    }
  }

  /** A claim of another lane leaves the row waiting. */
  lemma StillWaits(w: World, w': World, user: nat, conv: nat, other: nat, i: nat)
    requires OnlyLane(w, w', user, conv) && other != conv && Waits(w, user, other, i)
    ensures Waits(w', user, other, i) && w'.rows[i] == w.rows[i]
  {
    forall j | 0 <= j < |w.rows|
      ensures Candidate(w'.rows[j], user, other) == Candidate(w.rows[j], user, other)
      ensures w.rows[j].InLane(user, other) ==> w'.rows[j] == w.rows[j]
    {
      assert w'.rows[j].Id() == w.rows[j].Id();
    }
    LaneHeadSame(w.rows, w'.rows, w.ledger.messages, user, other, |w.rows|);
  }

  lemma {:induction false} ConversationsAttempt(env: Env, w: World, session: Session, convs: seq<nat>, now: int,
                                                conv: nat, i: nat)
    requires env.cfg.leaseMs > 0 && Filed(w.rows, w.ledger.messages) && conv in convs && Waits(w, session.user, conv, i)
    ensures var w' := ClaimConversations(env, w, session, convs, now);
      session in w'.coord.paused || Attempted(w'.log, |w.log|, w.rows[i].Id())
    decreases |convs|
  {
    hide ClaimConversation;
    hide OnlyLane;
    hide Waits;
    hide Filed;
    hide Attempted;
    hide LaneDone;
    var c := convs[0];
    var (w1, stopped) := ClaimConversation(env, w, session, c, now);
    ClaimConversationDone(env, w, session, c, now, |w.log|);
    LaneRowsStay(w, w1, session.user, c);
    if !stopped {
      OnlyLaneFiled(w, w1, session.user, c);
      ClaimConversationsDone(env, w1, session, convs[1..], now, |w1.log|);
      var w' := ClaimConversations(env, w1, session, convs[1..], now);
      if c == conv {
        HeadAttempted(env, w, session, conv, now, i);
        AttemptedMore(w1.log, w'.log, |w.log|, WaitsAt(w, session.user, conv, i).Id());
      } else {
        StillWaits(w, w1, session.user, c, conv, i);
        ConversationsAttempt(env, w1, session, convs[1..], now, conv, i);
        AttemptedSince(w'.log, |w.log|, |w1.log|, WaitsAt(w, session.user, conv, i).Id());
      }
    }
  }

  ghost function WaitsAt(w: World, user: nat, conv: nat, i: nat): (d: Delivery)
    requires Waits(w, user, conv, i)
    ensures i < |w.rows| && d == w.rows[i]
  {
    w.rows[i]
  }

  lemma AttemptedSince(log: seq<Attempt>, from: nat, later: nat, k: Key)
    requires from <= later
    ensures Attempted(log, later, k) ==> Attempted(log, from, k)
  {}

  /** A claim attempts the first open row of each lane, unless the session gets paused. */
  lemma ClaimAttempts(env: Env, w: World, session: Session, conv: nat, i: nat)
    requires env.cfg.leaseMs > 0 && Filed(w.rows, w.ledger.messages) && session !in w.coord.paused
    requires Waits(w, session.user, conv, i)
    ensures var w' := ClaimFor(env, w, session);
      session in w'.coord.paused || Attempted(w'.log, |w.log|, w.rows[i].Id())
  {
    hide ClaimConversations;
    hide Attempted;
    HeadIsOpen(w, session.user, conv);
    OpenConversationsComplete(w.rows, session.user, |w.rows|, i);
    var w0 := w.(clockReads := w.clockReads + 1);
    SameRowsSameHead(w, w0, session.user, conv);
    var convs := OpenConversations(w.rows, session.user, |w.rows|);
    ConversationsAttempt(env, w0, session, convs, env.clock(w.clockReads), conv, i);
  }

  /** What a claim for one user leaves alone. */
  ghost predicate OnlyUser(w: World, w': World, session: Session) {
    && |w'.rows| == |w.rows| && w.log <= w'.log && w'.ledger == w.ledger
    && w.coord.paused <= w'.coord.paused <= w.coord.paused + {session}
    && (forall j :: 0 <= j < |w.rows| ==>
          && w'.rows[j].Id() == w.rows[j].Id() && w'.rows[j].conversation == w.rows[j].conversation
          && (w.rows[j].recipient != session.user ==> w'.rows[j] == w.rows[j]))
  }

  lemma OnlyUserTrans(a: World, b: World, c: World, session: Session)
    requires OnlyUser(a, b, session) && OnlyUser(b, c, session)
    ensures OnlyUser(a, c, session)
  {
    forall j | 0 <= j < |a.rows| ensures a.rows[j].recipient == b.rows[j].recipient {
      assert b.rows[j].Id() == a.rows[j].Id();
    }
  }

  lemma TriedOnlyUser(env: Env, w: World, session: Session, h: nat, now: int)
    requires h < |w.rows| && w.rows[h].messageId in w.ledger.messages && w.rows[h].recipient == session.user
    ensures OnlyUser(w, Tried(env, w, session, h, now), session)
  {
    hide ClaimMetrics;
  }

  lemma {:induction false} ClaimConversationUser(env: Env, w: World, session: Session, conv: nat, now: int)
    requires env.cfg.leaseMs > 0
    ensures OnlyUser(w, ClaimConversation(env, w, session, conv, now).0, session)
    decreases |ClaimableIn(w.rows, session.user, conv, now)|
  {
    hide Tried;
    var h := Head(w, session.user, conv);
    if h >= 0 && Claimable(w.rows[h], now) && w.rows[h].messageId in w.ledger.messages {
      TriedOnlyUser(env, w, session, h, now);
      hide OnlyUser;
      if env.answers(|w.log|) == Accepted {
        var w1 := Tried(env, w, session, h, now);
        TriedShrinks(env, w, session, h, now, conv);
        ClaimConversationUser(env, w1, session, conv, now);
        OnlyUserTrans(w, w1, ClaimConversation(env, w1, session, conv, now).0, session);
      }
    }
  }

  lemma OnlyUserSelf(w: World, session: Session)
    ensures OnlyUser(w, w, session)
  {}

  lemma {:induction false} ClaimConversationsUser(env: Env, w: World, session: Session, convs: seq<nat>, now: int)
    requires env.cfg.leaseMs > 0
    ensures OnlyUser(w, ClaimConversations(env, w, session, convs, now), session)
    decreases |convs|
  {
    hide ClaimConversation;
    hide OnlyUser;
    OnlyUserSelf(w, session);
    if convs != [] {
      var w1 := ClaimConversation(env, w, session, convs[0], now).0;
      ClaimConversationUser(env, w, session, convs[0], now);
      ClaimConversationsUser(env, w1, session, convs[1..], now);
      OnlyUserTrans(w, w1, ClaimConversations(env, w1, session, convs[1..], now), session);
    }
  }

  lemma ClaimForUser(env: Env, w: World, session: Session)
    requires env.cfg.leaseMs > 0
    ensures OnlyUser(w, ClaimFor(env, w, session), session)
  {
    hide ClaimConversations;
    ClaimConversationsUser(env, w.(clockReads := w.clockReads + 1), session,
                           OpenConversations(w.rows, session.user, |w.rows|), env.clock(w.clockReads));
  }

  lemma OnlyUserKeeps(w: World, w': World, session: Session, user: nat, conv: nat, i: nat)
    requires OnlyUser(w, w', session) && Filed(w.rows, w.ledger.messages)
    ensures Filed(w'.rows, w'.ledger.messages)
    ensures session.user != user && Waits(w, user, conv, i) ==> Waits(w', user, conv, i) && w'.rows[i] == w.rows[i]
  {
    forall j | 0 <= j < |w.rows|
      ensures w'.rows[j].messageId == w.rows[j].messageId && w'.rows[j].recipient == w.rows[j].recipient
    {
      assert w'.rows[j].Id() == w.rows[j].Id();
    }
    if session.user != user && Waits(w, user, conv, i) {
      LaneHeadSame(w.rows, w'.rows, w.ledger.messages, user, conv, |w.rows|);
    }
  }

  lemma {:induction false} ClaimEachGrows(env: Env, w: World, sessions: seq<Session>)
    requires env.cfg.leaseMs > 0
    ensures var w' := ClaimEach(env, w, sessions); w.log <= w'.log && w.coord.paused <= w'.coord.paused
    decreases |sessions|
  {
    hide ClaimFor;
    if sessions != [] {
      ClaimForUser(env, w, sessions[0]);
      ClaimEachGrows(env, ClaimFor(env, w, sessions[0]), sessions[1..]);
    }
  }

  lemma {:induction false} ClaimEachAttempts(env: Env, w: World, sessions: seq<Session>, s: Session, conv: nat, i: nat)
    requires env.cfg.leaseMs > 0 && Filed(w.rows, w.ledger.messages) && s in sessions && s !in w.coord.paused
    requires Waits(w, s.user, conv, i) && forall x :: x in sessions && x.user == s.user ==> x == s
    ensures var w' := ClaimEach(env, w, sessions);
      s in w'.coord.paused || Attempted(w'.log, |w.log|, WaitsAt(w, s.user, conv, i).Id())
    decreases |sessions|
  {
    hide ClaimFor;
    hide Filed;
    hide Waits;
    hide Attempted;
    var x, k := sessions[0], WaitsAt(w, s.user, conv, i).Id();
    var w1 := ClaimFor(env, w, x);
    ClaimForUser(env, w, x);
    OnlyUserKeeps(w, w1, x, s.user, conv, i);
    ClaimEachGrows(env, w1, sessions[1..]);
    if x == s {
      ClaimAttempts(env, w, s, conv, i);
      if s !in w1.coord.paused {
        AttemptedMore(w1.log, ClaimEach(env, w, sessions).log, |w.log|, k);
      }
    } else {
      ClaimEachAttempts(env, w1, sessions[1..], s, conv, i);
      AttemptedSince(ClaimEach(env, w, sessions).log, |w.log|, |w1.log|, k);
    }
  }

  lemma {:induction false} InsertSessionHolds(s: seq<Session>, x: Session)
    ensures x in InsertSession(s, x) && forall y :: y in s ==> y in InsertSession(s, x)
  {
    if s != [] && !SessionLess(x, s[0]) && x != s[0] {
      InsertSessionHolds(s[1..], x);
    }
  }

  lemma {:induction false} RetriersHold(c: Coordinator, due: seq<Delivery>, k: nat)
    requires k < |due| && Retriable(c, due[k])
    ensures c.active[due[k].recipient] in Retriers(c, due)
  {
    var last, s := due[|due| - 1], Retriers(c, due[..|due| - 1]);
    if Retriable(c, last) {
      InsertSessionHolds(s, c.active[last.recipient]);
    }
    if k < |due| - 1 {
      RetriersHold(c, due[..|due| - 1], k);
    }
  }

  lemma RetriersOnePerUser(w: World, c: Coordinator, due: seq<Delivery>, s: Session)
    requires Deliveries(w) && c.active == w.coord.active && s.user in c.active && c.active[s.user] == s
    ensures forall x :: x in Retriers(c, due) && x.user == s.user ==> x == s
  {
    forall x | x in Retriers(c, due) && x.user == s.user ensures x == s {
      var j :| 0 <= j < |Retriers(c, due)| && Retriers(c, due)[j] == x;
      RetriersActive(c, due, j);
      var u :| u in c.active && c.active[u] == x;
      assert Fenced(w.rows, w.coord);
    }
  }

  ghost predicate RolledBack(rows: seq<Delivery>, rows1: seq<Delivery>) {
    |rows1| == |rows| && forall j :: 0 <= j < |rows| ==>
      rows1[j] == rows[j] || (rows[j].state == InFlight && rows1[j] == Unleased(rows[j]))
  }

  lemma RolledBackRow(rows: seq<Delivery>, rows1: seq<Delivery>, m: map<nat, Message>, user: nat, conv: nat, j: nat)
    requires RolledBack(rows, rows1) && j < |rows|
    ensures Candidate(rows1[j], user, conv) == Candidate(rows[j], user, conv)
    ensures SequenceOf(m, rows1[j]) == SequenceOf(m, rows[j])
    ensures rows1[j].Id() == rows[j].Id() && rows1[j].conversation == rows[j].conversation
  {}

  lemma RolledBackFiled(rows: seq<Delivery>, rows1: seq<Delivery>, m: map<nat, Message>)
    requires RolledBack(rows, rows1) && Filed(rows, m)
    ensures Filed(rows1, m)
  {
    hide RolledBack;
    assert |rows1| == |rows| by { RolledBackLength(rows, rows1); }
    forall j | 0 <= j < |rows|
      ensures rows1[j].messageId == rows[j].messageId && rows1[j].recipient == rows[j].recipient
      ensures rows1[j].conversation == rows[j].conversation
    {
      RolledBackRow(rows, rows1, m, 0, 0, j);
      assert rows1[j].Id() == rows[j].Id();
    }
  }

  lemma RolledBackLength(rows: seq<Delivery>, rows1: seq<Delivery>)
    requires RolledBack(rows, rows1)
    ensures |rows1| == |rows|
  {}

  /** A row in flight that is rolled back waits at the head of its lane. */
  lemma RolledBackWaits(w: World, w1: World, i: nat)
    requires HeadOfLine(w.rows, w.ledger.messages) && RolledBack(w.rows, w1.rows) && w1.ledger == w.ledger
    requires i < |w.rows| && w.rows[i].state == InFlight && w1.rows[i] == Unleased(w.rows[i])
    ensures Waits(w1, w.rows[i].recipient, w.rows[i].conversation, i)
  {
    hide RolledBack;
    var user, conv, m := w.rows[i].recipient, w.rows[i].conversation, w.ledger.messages;
    RolledBackLength(w.rows, w1.rows);
    assert Candidate(w1.rows[i], user, conv);
    var h := Head(w1, user, conv);
    assert h >= 0 && Candidate(w1.rows[h], user, conv);
    RolledBackRow(w.rows, w1.rows, m, user, conv, h);
    RolledBackRow(w.rows, w1.rows, m, user, conv, i);
    assert SequenceOf(m, w1.rows[h]) <= SequenceOf(m, w1.rows[i]);
  }

  lemma InvLanes(w: World)
    requires Inv(w)
    ensures HeadOfLine(w.rows, w.ledger.messages)
  {}

  /**
    Retries happen: a due row within the scan's limit, leased to its recipient's
    active and unpaused session, is attempted again by the scan unless the sink
    pauses that session.
  */
  lemma RetryHappens(env: Env, w: World, now: int, i: nat)
    requires env.cfg.leaseMs > 0 && Inv(w) && i < |w.rows|
    requires i in DueFrom(w.rows, 0, now, env.cfg.retryBatchLimit) && Retriable(w.coord, w.rows[i])
    ensures var w' := RetryScan(env, w, now);
      w.coord.active[w.rows[i].recipient] in w'.coord.paused || Attempted(w'.log, |w.log|, w.rows[i].Id())
  {
    hide Deliveries;
    hide Ledger.Exact;
    hide Attempted;
    hide Waits;
    hide Filed;
    hide ClaimEach;
    hide DueFrom;
    hide Retriers;
    hide HeadOfLine;
    var c, s := w.coord.(tickNexts := []), w.coord.active[w.rows[i].recipient];
    var w0, due := w.(coord := c), DueFrom(w.rows, 0, now, env.cfg.retryBatchLimit);
    DueInRange(w.rows, 0, now, env.cfg.retryBatchLimit);
    RollBackRows(env, w0, due);
    var w1, sessions := RollBack(env, w0, due), Retriers(c, RowsAt(w.rows, due));
    InvFiled(w);
    InvLanes(w);
    RolledBackFiled(w.rows, w1.rows, w.ledger.messages);
    RolledBackWaits(w, w1, i);
    ActiveUser(w, w.rows[i].recipient);
    var k :| 0 <= k < |due| && due[k] == i;
    RetriersHold(c, RowsAt(w.rows, due), k);
    RetriersOnePerUser(w, c, RowsAt(w.rows, due), s);
    ClaimEachAttempts(env, w1, sessions, s, w.rows[i].conversation, i);
  }

  lemma ActiveUser(w: World, user: nat)
    requires Deliveries(w) && user in w.coord.active
    ensures w.coord.active[user].user == user
  {}

  // ---- Bounded scans ----

  /** The retry scan takes due rows in order, and leaves one out only when its limit is used up by earlier ones. */
  lemma {:induction false} DueExactly(rows: seq<Delivery>, i: nat, now: int, limit: nat, j: nat)
    requires i <= j < |rows|
    ensures var due := DueFrom(rows, i, now, limit);
      && (j in due ==> RetryDue(rows[j], now))
      && (RetryDue(rows[j], now) && j !in due ==> |due| == limit && forall k :: k in due ==> k < j)
    decreases |rows| - i
  {
    DueInRange(rows, i, now, limit);
    if limit > 0 {
      if RetryDue(rows[i], now) {
        DueInRange(rows, i + 1, now, limit - 1);
        if i < j {
          DueExactly(rows, i + 1, now, limit - 1, j);
        }
      } else if i < j {
        DueExactly(rows, i + 1, now, limit, j);
      }
    }
  }

  /**
    Expiry touches overdue open rows only, reports each with its former state, and
    leaves one over only at the limit.
  */
  lemma {:induction false} ExpireExactly(rows: seq<Delivery>, i: nat, now: int, limit: nat, j: nat)
    requires i <= j < |rows|
    ensures var (rows', list) := ExpireFrom(rows, i, now, limit);
      && |rows'| == |rows| && |list| <= limit
      && (if ExpiryDue(rows[j], now) && rows'[j] != rows[j]
          then rows'[j] == rows[j].(state := Expired) && Expiry(rows[j].Id(), rows[j].state) in list
          else rows'[j] == rows[j])
      && (ExpiryDue(rows'[j], now) ==> |list| == limit)
    decreases |rows| - i
  {
    ExpireFromRows(rows, i, now, limit);
    if limit > 0 {
      if ExpiryDue(rows[i], now) {
        var rows1 := rows[i := rows[i].(state := Expired)];
        ExpireFromRows(rows1, i + 1, now, limit - 1);
        if i < j {
          ExpireExactly(rows1, i + 1, now, limit - 1, j);
        } else {
          ExpireCount(rows1, i + 1, now, limit - 1);
        }
      } else if i < j {
        ExpireExactly(rows, i + 1, now, limit, j);
      } else {
        ExpireFromRows(rows, i + 1, now, limit);
        ExpireCount(rows, i + 1, now, limit);
      }
    }
  }

  lemma {:induction false} ExpireCount(rows: seq<Delivery>, i: nat, now: int, limit: nat)
    requires i <= |rows|
    ensures |ExpireFrom(rows, i, now, limit).1| <= limit
    decreases |rows| - i
  {
    if i < |rows| && limit > 0 {
      if ExpiryDue(rows[i], now) {
        ExpireCount(rows[i := rows[i].(state := Expired)], i + 1, now, limit - 1);
      } else {
        ExpireCount(rows, i + 1, now, limit);
      }
    }
  }

  function RowsOf(gone: seq<Removal>): (rows: seq<Delivery>)
    ensures |rows| == |gone|
  {
    if gone == [] then [] else [gone[0].row] + RowsOf(gone[1..])
  }

  lemma RemoveOne(rows: seq<Delivery>, i: nat)
    requires i < |rows|
    ensures multiset(rows) == multiset(rows[..i] + rows[i + 1..]) + multiset{rows[i]}
  {
    assert rows == rows[..i] + [rows[i]] + rows[i + 1..];
  }

  /** One turn of the cleanup loop. */
  lemma CleanTurn(rows: seq<Delivery>, i: nat, ackedBefore: int, expiredBefore: int, a: nat, e: nat)
    requires i < |rows|
    ensures var acked, past := AckedPast(rows[i], ackedBefore) && a > 0, ExpiredPast(rows[i], expiredBefore) && e > 0;
      CleanFrom(rows, i, ackedBefore, expiredBefore, a, e)
      == if acked || past then
           var a', e' := if acked then a - 1 else a, if acked then e else e - 1;
           var r := CleanFrom(rows[..i] + rows[i + 1..], i, ackedBefore, expiredBefore, a', e');
           (r.0, [Removal(rows[i], ackedBefore, expiredBefore)] + r.1)
         else CleanFrom(rows, i + 1, ackedBefore, expiredBefore, a, e)
  {}

  lemma Conserved(rows: seq<Delivery>, i: nat, rows': seq<Delivery>, gone: seq<Removal>, r: Removal)
    requires i < |rows| && r.row == rows[i]
    requires multiset(rows[..i] + rows[i + 1..]) == multiset(rows') + multiset(RowsOf(gone))
    ensures multiset(rows) == multiset(rows') + multiset(RowsOf([r] + gone))
  {
    hide RowsOf;
    RemoveOne(rows, i);
    RowsOfMore(r, gone);
  }

  /** Cleanup conserves: every row is either still in the table or among those removed, once. */
  lemma {:induction false} CleanConserves(rows: seq<Delivery>, i: nat, ackedBefore: int, expiredBefore: int, a: nat,
                                          e: nat)
    requires i <= |rows|
    ensures var (rows', gone) := CleanFrom(rows, i, ackedBefore, expiredBefore, a, e);
      multiset(rows) == multiset(rows') + multiset(RowsOf(gone))
    decreases |rows| - i
  {
    if i < |rows| {
      hide CleanFrom;
      hide AckedPast;
      hide ExpiredPast;
      CleanTurn(rows, i, ackedBefore, expiredBefore, a, e);
      if (AckedPast(rows[i], ackedBefore) && a > 0) || (ExpiredPast(rows[i], expiredBefore) && e > 0) {
        var acked := AckedPast(rows[i], ackedBefore) && a > 0;
        var a', e', less := if acked then a - 1 else a, if acked then e else e - 1, rows[..i] + rows[i + 1..];
        CleanConserves(less, i, ackedBefore, expiredBefore, a', e');
        var r := CleanFrom(less, i, ackedBefore, expiredBefore, a', e');
        Conserved(rows, i, r.0, r.1, Removal(rows[i], ackedBefore, expiredBefore));
      } else {
        CleanConserves(rows, i + 1, ackedBefore, expiredBefore, a, e);
      }
    }
  }

  lemma RowsOfMore(r: Removal, gone: seq<Removal>)
    ensures multiset(RowsOf([r] + gone)) == multiset(RowsOf(gone)) + multiset{r.row}
  {
    assert ([r] + gone)[1..] == gone;
  }

  /** How many of the removals took an acknowledged row, and how many an expired one. */
  function AckedIn(gone: seq<Removal>): nat {
    if gone == [] then 0 else AckedIn(gone[1..]) + if gone[0].row.state == Acknowledged then 1 else 0
  }

  function ExpiredIn(gone: seq<Removal>): nat {
    if gone == [] then 0 else ExpiredIn(gone[1..]) + if gone[0].row.state == Expired then 1 else 0
  }

  /** A row past its retention is left over only when the limit of its own kind is used up. */
  lemma {:induction false} CleanThorough(rows: seq<Delivery>, i: nat, ackedBefore: int, expiredBefore: int, a: nat,
                                         e: nat)
    requires i <= |rows|
    ensures var (rows', gone) := CleanFrom(rows, i, ackedBefore, expiredBefore, a, e);
      && i <= |rows'| && rows'[..i] == rows[..i] && AckedIn(gone) <= a && ExpiredIn(gone) <= e
      && (forall j :: i <= j < |rows'| ==>
            && (AckedPast(rows'[j], ackedBefore) ==> AckedIn(gone) == a)
            && (ExpiredPast(rows'[j], expiredBefore) ==> ExpiredIn(gone) == e))
    decreases |rows| - i
  {
    if i < |rows| {
      if (AckedPast(rows[i], ackedBefore) && a > 0) || (ExpiredPast(rows[i], expiredBefore) && e > 0) {
        var acked := AckedPast(rows[i], ackedBefore) && a > 0;
        var a', e', less := if acked then a - 1 else a, if acked then e else e - 1, rows[..i] + rows[i + 1..];
        CleanThorough(less, i, ackedBefore, expiredBefore, a', e');
        assert less[..i] == rows[..i];
        var gone := CleanFrom(less, i, ackedBefore, expiredBefore, a', e').1;
        assert ([Removal(rows[i], ackedBefore, expiredBefore)] + gone)[1..] == gone;
      } else {
        CleanThorough(rows, i + 1, ackedBefore, expiredBefore, a, e);
        var (rows', gone) := CleanFrom(rows, i + 1, ackedBefore, expiredBefore, a, e);
        assert rows'[i] == rows'[..i + 1][i] == rows[i];
        assert rows'[..i] == rows'[..i + 1][..i] == rows[..i];
      }
    }
  }
}
