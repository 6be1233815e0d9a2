/**
  When the claim loop of one conversation ends: exactly when leases last.
*/
module ProtocolTermination {
  import opened Domain
  import opened Protocol
  import opened ProtocolSafety
  import opened ProtocolAccept
  import opened ProtocolTheorems
  import Ledger
  import Recorder
  import RetryTiming

  /** The guard of a turn: the lane has an open row, it is claimable, and its message is stored. */
  predicate Ready(w: World, session: Session, conv: nat, now: int) {
    var h := Head(w, session.user, conv);
    h >= 0 && Claimable(w.rows[h], now) && w.rows[h].messageId in w.ledger.messages
  }

  /** The state after at most n turns of the loop; a turn the sink does not admit is the last. */
  function Turns(env: Env, w: World, session: Session, conv: nat, now: int, n: nat): World
    decreases n
  {
    if n == 0 || !Ready(w, session, conv, now) then w
    else
      var w1 := Tried(env, w, session, Head(w, session.user, conv), now);
      if env.answers(|w.log|) == Accepted then Turns(env, w1, session, conv, now, n - 1) else w1
  }

  // ---- A lease that lasts ----

  lemma ReadyIsClaimable(w: World, session: Session, conv: nat, now: int)
    requires Ready(w, session, conv, now)
    ensures var h := Head(w, session.user, conv);
      Candidate(w.rows[h], session.user, conv) && h in ClaimableIn(w.rows, session.user, conv, now)
  {}

  /** There are never more turns than claimable rows, whatever the sink answers. */
  lemma {:induction false} TurnsBounded(env: Env, w: World, session: Session, conv: nat, now: int, n: nat)
    requires env.cfg.leaseMs > 0
    ensures |Turns(env, w, session, conv, now, n).log| <= |w.log| + |ClaimableIn(w.rows, session.user, conv, now)|
    decreases n
  {
    hide Tried;
    hide ClaimableIn;
    if n > 0 && Ready(w, session, conv, now) {
      ReadyIsClaimable(w, session, conv, now);
      var h := Head(w, session.user, conv);
      TriedLogs(env, w, session, h, now);
      if env.answers(|w.log|) == Accepted {
        TriedShrinks(env, w, session, h, now, conv);
        TurnsBounded(env, Tried(env, w, session, h, now), session, conv, now, n - 1);
      }
    }
  }

  lemma TriedLogs(env: Env, w: World, session: Session, i: nat, now: int)
    requires i < |w.rows| && w.rows[i].messageId in w.ledger.messages
    ensures |Tried(env, w, session, i, now).log| == |w.log| + 1
  {
    hide ClaimMetrics;
  }

  /** That many turns are the whole claim of the conversation. */
  lemma {:induction false} TurnsAreTheClaim(env: Env, w: World, session: Session, conv: nat, now: int, n: nat)
    requires env.cfg.leaseMs > 0 && n >= |ClaimableIn(w.rows, session.user, conv, now)|
    ensures Turns(env, w, session, conv, now, n) == ClaimConversation(env, w, session, conv, now).0
    decreases n
  {
    hide Tried;
    hide ClaimableIn;
    if Ready(w, session, conv, now) {
      ReadyIsClaimable(w, session, conv, now);
      var h := Head(w, session.user, conv);
      if env.answers(|w.log|) == Accepted {
        TriedShrinks(env, w, session, h, now, conv);
        TurnsAreTheClaim(env, Tried(env, w, session, h, now), session, conv, now, n - 1);
      }
    }
  }

  // ---- A lease of no duration ----

  lemma HeadStays(env: Env, w: World, session: Session, conv: nat, now: int)
    requires Inv(w) && env.cfg.leaseMs <= 0 && env.answers(|w.log|) == Accepted
    requires var h := Head(w, session.user, conv); h >= 0 && !LegacyRow(w.ledger.messages, w.rows[h])
    ensures var h := Head(w, session.user, conv); var w1 := Tried(env, w, session, h, now);
      Head(w1, session.user, conv) == h && Claimable(w1.rows[h], now) && !LegacyRow(w1.ledger.messages, w1.rows[h])
  {
    hide Sorted;
    hide Leased;
    hide HeadOfLine;
    hide Fenced;
    hide LogFiled;
    hide LogOrdered;
    hide LogBehind;
    hide Counted;
    hide LogNumbered;
    hide LegacyOnce;
    hide Attributed;
    hide Owed;
    hide Recorder.Transition;
    hide Ledger.Exact;
    hide RetryTiming.RetryDelay;
    var h := Head(w, session.user, conv);
    HeadBelowSame(w.rows, Tried(env, w, session, h, now).rows, w.ledger.messages, session.user, conv, |w.rows|);
  }

  lemma HeadBelowSame(rows: seq<Delivery>, rows': seq<Delivery>, m: map<nat, Message>, user: nat, conv: nat, n: nat)
    requires n <= |rows| == |rows'|
    requires forall j :: 0 <= j < n ==>
               && Candidate(rows'[j], user, conv) == Candidate(rows[j], user, conv)
               && SequenceOf(m, rows'[j]) == SequenceOf(m, rows[j])
    ensures HeadBelow(rows', m, user, conv, n) == HeadBelow(rows, m, user, conv, n)
  {}

  lemma HeadFiled(w: World, session: Session, conv: nat)
    requires Inv(w) && Head(w, session.user, conv) >= 0
    ensures w.rows[Head(w, session.user, conv)].messageId in w.ledger.messages
  {}

  /** An admitted row stays claimable at the same instant, so the loop makes any number of turns. */
  lemma {:induction false} EmptyLeaseNeverEnds(env: Env, w: World, session: Session, conv: nat, now: int, n: nat)
    requires Inv(w) && env.cfg.leaseMs <= 0 && MayClaim(w.coord, session) && (forall a :: env.answers(a) == Accepted)
    requires Ready(w, session, conv, now) && !LegacyRow(w.ledger.messages, w.rows[Head(w, session.user, conv)])
    ensures var w' := Turns(env, w, session, conv, now, n); |w'.log| == |w.log| + n && Ready(w', session, conv, now)
    decreases n
  {
    hide Deliveries;
    hide Ledger.Exact;
    hide Tried;
    if n > 0 {
      var h := Head(w, session.user, conv);
      var w1 := Tried(env, w, session, h, now);
      TriedLogs(env, w, session, h, now);
      TriedInv(env, w, session, conv, now);
      HeadStays(env, w, session, conv, now);
      HeadFiled(w1, session, conv);
      EmptyLeaseNeverEnds(env, w1, session, conv, now, n - 1);
    }
  }

  const HELLO := Command("m1", Direct, 2, 0, [], "hello")

  /** One message from user 1 to user 2, accepted while user 2 is offline. */
  function OneWaiting(env: Env): World {
    Enrol(env, Initial(0), 1, HELLO)
  }

  /** It is where an accept leads: the lease plays no part while the recipient is offline. */
  lemma OneWaitingArises(env: Env)
    ensures OneWaiting(env) == Accept(env.(cfg := env.cfg.(leaseMs := 1)), Initial(0), Session(1, 1), HELLO)
  {
    hide InsertRows;
    hide RecordCreated;
    assert RecipientsFor(HELLO) == [2] && [2][1..] == [];
  }

  lemma OneWaitingInv(env: Env)
    ensures Inv(OneWaiting(env))
  {
    hide Deliveries;
    hide Ledger.Exact;
    InitialInv(0);
    EnrolInv(env, Initial(0), 1, HELLO);
  }

  lemma OneWaitingRow(env: Env)
    ensures var w := OneWaiting(env);
      && w.log == [] && w.coord.active == map[]
      && |w.rows| == 1 && Candidate(w.rows[0], 2, 1) && w.rows[0].messageId == 1 && w.rows[0].state == Pending
      && 1 in w.ledger.messages && w.ledger.messages[1].command == HELLO
  {
    var m := Ledger.AcceptedMessage(Ledger.EMPTY, 1, HELLO, env.clock(0));
    assert m.id == 1 && m.conversation == 1 && m.command == HELLO;
    var d := NewRow(m, 2, env.clock(1) + env.cfg.messageRetentionMs);
    assert RecipientsFor(HELLO) == [2] && [2][1..] == [];
    assert InsertRow([], d) == [d];
    assert OneWaiting(env).rows == InsertRows([d], m, [], env.clock(1) + env.cfg.messageRetentionMs);
  }

  lemma OneWaitingReady(env: Env, now: int)
    ensures var w := OneWaiting(env);
      Ready(w, Session(2, 1), 1, now) && !LegacyRow(w.ledger.messages, w.rows[Head(w, 2, 1)])
  {
    hide OneWaiting;
    OneWaitingRow(env);
  }

  /** The concrete failing input: user 2 logs in, and the claim of that one message never ends. */
  lemma OneMessageForever(env: Env, now: int, n: nat)
    requires env.cfg.leaseMs <= 0 && forall a :: env.answers(a) == Accepted
    ensures |Turns(env, OneWaiting(env), Session(2, 1), 1, now, n).log| == n
  {
    hide OneWaiting;
    hide Deliveries;
    hide Ledger.Exact;
    OneWaitingInv(env);
    OneWaitingRow(env);
    OneWaitingReady(env, now);
    EmptyLeaseNeverEnds(env, OneWaiting(env), Session(2, 1), 1, now, n);
  }

  // ---- Exactly ----

  ghost predicate EndsWithin(env: Env, w: World, session: Session, conv: nat, now: int, n: nat) {
    forall m :: |Turns(env, w, session, conv, now, m).log| <= |w.log| + n
  }

  ghost predicate Ends(env: Env, w: World, session: Session, conv: nat, now: int) {
    exists n :: EndsWithin(env, w, session, conv, now, n)
  }

  /** Under this configuration the loop ends in every world, for every sink and clock. */
  ghost predicate ClaimEnds(cfg: Config) {
    forall env: Env, w: World, session: Session, conv: nat, now: int ::
      env.cfg == cfg ==> Ends(env, w, session, conv, now)
  }

  lemma LastingLeaseEnds(env: Env, w: World, session: Session, conv: nat, now: int)
    requires env.cfg.leaseMs > 0
    ensures Ends(env, w, session, conv, now)
  {
    hide Turns;
    var n := |ClaimableIn(w.rows, session.user, conv, now)|;
    forall m ensures |Turns(env, w, session, conv, now, m).log| <= |w.log| + n {
      TurnsBounded(env, w, session, conv, now, m);
    }
    assert EndsWithin(env, w, session, conv, now, n);
  }

  lemma EmptyLeaseForever(env: Env, now: int)
    requires env.cfg.leaseMs <= 0 && forall a :: env.answers(a) == Accepted
    ensures !Ends(env, OneWaiting(env), Session(2, 1), 1, now)
  {
    hide Turns;
    hide OneWaiting;
    OneWaitingRow(env);
    forall n: nat ensures !EndsWithin(env, OneWaiting(env), Session(2, 1), 1, now, n) {
      OneMessageForever(env, now, n + 1);
    }
  }

  /** The claim loop ends, whatever the state and the sink, if and only if a lease has a duration. */
  lemma ClaimEndsExactly(cfg: Config)
    ensures ClaimEnds(cfg) <==> cfg.leaseMs > 0
  {
    hide Ends;
    if cfg.leaseMs > 0 {
      forall env: Env, w: World, session: Session, conv: nat, now: int | env.cfg == cfg
        ensures Ends(env, w, session, conv, now)
      {
        LastingLeaseEnds(env, w, session, conv, now);
      }
    } else {
      EmptyLeaseForever(Env(cfg, n => 0, n => Accepted, n => 1.0, n => 0), 0);
    }
  }
}
