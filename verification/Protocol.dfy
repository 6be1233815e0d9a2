/**
  The delivery protocol as a state machine over values: one coordinator over
  the in-memory store, a sink that answers each attempt as it likes, and clocks
  that show any readings at all.  The delivery table is the store's ordered
  map, kept as a sequence sorted by (message, recipient).
*/
module Protocol {
  import opened Domain
  import RetryTiming
  import Recorder
  import Ledger

  /** The sink's answer to one attempt. */
  datatype Disposition = Accepted | Paused | Closed

  datatype Attempt = Attempt(
    messageId: nat, conversation: nat, sequence: nat, sender: nat, recipient: nat,
    kind: Kind, directRecipient: nat, groupId: nat, content: string,
    number: nat, answer: Disposition)
  {
    function Id(): Key {
      Key(messageId, recipient)
    }
  }

  /** The volatile state of one process: its boot id and what it knows of sessions. */
  datatype Coordinator = Coordinator(
    boot: nat, paused: set<Session>, active: map<nat, Session>,
    observed: map<nat, nat>, tickNexts: seq<int>)

  /** A row taken out by the retention cleanup, with the thresholds of that cleanup. */
  datatype Removal = Removal(row: Delivery, ackedBefore: int, expiredBefore: int)

  /**
    Everything the protocol acts on.  Three fields are history the program does
    not keep: `log` is every attempt ever handed to the sink, `cleaned` every row
    ever cleaned up, and `acks` the deliveries their recipients acknowledged.
  */
  datatype World = World(
    ledger: Ledger.Ledger, rows: seq<Delivery>, coord: Coordinator,
    log: seq<Attempt>, clockReads: nat, recorder: Recorder.State,
    lastCleanup: int, cleaned: seq<Removal>, acks: set<Key>)

  /** The surroundings: parameters, the n-th clock reading, the n-th sink answer, jitter factors. */
  datatype Env = Env(
    cfg: Config, clock: nat -> int, answers: nat -> Disposition,
    jitter: nat -> real, metricsClock: nat -> int)

  datatype AckResult = AckAcknowledged | AckIdempotent | AckNotRecipient | AckNotFound

  datatype AcceptOutcome = Taken(id: nat, conversation: nat, sequence: nat, duplicate: bool) | IdempotencyConflict

  // ---- The delivery table ----

  /** The sequence number is read from the message; the stored copy may be stale. */
  function SequenceOf(messages: map<nat, Message>, d: Delivery): nat {
    if d.messageId in messages then messages[d.messageId].sequence else d.sequence
  }

  function Filled(messages: map<nat, Message>, d: Delivery): Delivery {
    d.(sequence := SequenceOf(messages, d))
  }

  /** Position of the row with this key, or -1. */
  function IndexOf(rows: seq<Delivery>, k: Key): (i: int)
    ensures -1 <= i < |rows|
    ensures i >= 0 ==> rows[i].Id() == k
    ensures i < 0 ==> forall j :: 0 <= j < |rows| ==> rows[j].Id() != k
  {
    if rows == [] then -1
    else if rows[0].Id() == k then 0
    else
      var i := IndexOf(rows[1..], k);
      assert forall j :: 1 <= j < |rows| ==> rows[j] == rows[1..][j - 1];
      if i < 0 then -1 else i + 1
  }

  function InsertRow(rows: seq<Delivery>, d: Delivery): seq<Delivery> {
    if rows == [] || KeyLess(d.Id(), rows[0].Id()) then [d] + rows
    else if d.Id() == rows[0].Id() then rows
    else [rows[0]] + InsertRow(rows[1..], d)
  }

  function NewRow(m: Message, recipient: nat, expiresAt: int): Delivery {
    Delivery(m.id, m.conversation, 0, recipient, Pending, NO_SESSION, 0, 0, 0, 0, expiresAt, 0, 0)
  }

  function InsertRows(rows: seq<Delivery>, m: Message, recipients: seq<nat>, expiresAt: int): seq<Delivery>
    decreases |recipients|
  {
    if recipients == [] then rows
    else InsertRows(InsertRow(rows, NewRow(m, recipients[0], expiresAt)), m, recipients[1..], expiresAt)
  }

  function RecordCreated(r: Recorder.State, m: Message, recipients: seq<nat>): Recorder.State
    decreases |recipients|
  {
    if recipients == [] then r
    else RecordCreated(Recorder.Created(r, Key(m.id, recipients[0]), m.acceptedAt), m, recipients[1..])
  }

  // ---- Head-of-line claiming ----

  predicate Candidate(d: Delivery, user: nat, conv: nat) {
    d.InLane(user, conv) && d.Live()
  }

  /** The open row of the lane with the smallest sequence number among the first n rows, or -1. */
  function HeadBelow(rows: seq<Delivery>, messages: map<nat, Message>, user: nat, conv: nat, n: nat): (h: int)
    requires n <= |rows|
    ensures -1 <= h < n
    ensures h < 0 ==> forall j :: 0 <= j < n ==> !Candidate(rows[j], user, conv)
    ensures h >= 0 ==> Candidate(rows[h], user, conv)
    ensures h >= 0 ==> forall j :: 0 <= j < n && Candidate(rows[j], user, conv) ==>
              SequenceOf(messages, rows[h]) <= SequenceOf(messages, rows[j])
    ensures h >= 0 ==> forall j :: 0 <= j < h && Candidate(rows[j], user, conv) ==>
              SequenceOf(messages, rows[h]) < SequenceOf(messages, rows[j])
  {
    if n == 0 then -1
    else
      var h := HeadBelow(rows, messages, user, conv, n - 1);
      if !Candidate(rows[n - 1], user, conv) then h
      else if h < 0 || SequenceOf(messages, rows[n - 1]) < SequenceOf(messages, rows[h]) then n - 1
      else h
  }

  function Head(w: World, user: nat, conv: nat): (h: int)
    ensures -1 <= h < |w.rows|
  {
    HeadBelow(w.rows, w.ledger.messages, user, conv, |w.rows|)
  }

  /** A pending row, or one in flight whose lease has run out. */
  predicate Claimable(d: Delivery, now: int) {
    d.state == Pending || (d.state == InFlight && d.leaseUntil <= now)
  }

  function AttemptAt(w: World, i: nat, answer: Disposition): Attempt
    requires i < |w.rows| && w.rows[i].messageId in w.ledger.messages
  {
    var d, m := w.rows[i], w.ledger.messages[w.rows[i].messageId];
    Attempt(d.messageId, d.conversation, m.sequence, m.sender, d.recipient, m.command.kind,
            m.command.directRecipient, m.command.groupId, m.command.content, d.attempts + 1, answer)
  }

  predicate LegacyRow(messages: map<nat, Message>, d: Delivery) {
    d.messageId in messages && IsLegacy(messages[d.messageId].command.clientId)
  }

  /** A row after the sink admitted it: leased and scheduled, or done at once for a legacy id. */
  function Claimed(cfg: Config, boot: nat, session: Session, d: Delivery, legacy: bool, now: int,
                   factor: real): Delivery {
    d.(state := if legacy then Acknowledged else InFlight,
       leaseOwner := session, leaseBoot := boot, leaseUntil := now + cfg.leaseMs,
       attempts := d.attempts + 1, lastSentAt := now,
       nextAttemptAt := now + RetryTiming.RetryDelay(cfg, d.attempts + 1, factor),
       acknowledgedAt := if legacy then now else d.acknowledgedAt)
  }

  function ClaimedRow(env: Env, w: World, session: Session, i: nat, now: int): Delivery
    requires i < |w.rows|
  {
    var d := Filled(w.ledger.messages, w.rows[i]);
    Claimed(env.cfg, w.coord.boot, session, d, LegacyRow(w.ledger.messages, d), now, env.jitter(|w.log|))
  }

  /** What the recorder is told of an admitted attempt. */
  function ClaimCounted(clock: nat -> int, r: Recorder.State, k: Key, from: DeliveryState, retry: bool,
                        legacy: bool): Recorder.State {
    var r' := Recorder.Transition(clock, Recorder.Attempted(r, retry), k, from, InFlight);
    if legacy then Recorder.Finished(clock, r', k, InFlight, Acknowledged) else r'
  }

  function ClaimMetrics(env: Env, w: World, i: nat): Recorder.State
    requires i < |w.rows|
  {
    var d := w.rows[i];
    ClaimCounted(env.metricsClock, w.recorder, d.Id(), d.state, d.attempts + 1 > 1, LegacyRow(w.ledger.messages, d))
  }

  /** One attempt on row i: only an admitted attempt changes the row. */
  function Tried(env: Env, w: World, session: Session, i: nat, now: int): World
    requires i < |w.rows| && w.rows[i].messageId in w.ledger.messages
  {
    var answer := env.answers(|w.log|);
    var log := w.log + [AttemptAt(w, i, answer)];
    match answer
    case Accepted =>
      var d := ClaimedRow(env, w, session, i, now);
      var nexts := if d.state == InFlight then w.coord.tickNexts + [d.nextAttemptAt] else w.coord.tickNexts;
      w.(log := log, rows := w.rows[i := d], recorder := ClaimMetrics(env, w, i),
         coord := w.coord.(tickNexts := nexts))
    case Paused => w.(log := log, coord := w.coord.(paused := w.coord.paused + {session}))
    case Closed => w.(log := log)
  }

  ghost function ClaimableIn(rows: seq<Delivery>, user: nat, conv: nat, now: int): set<int> {
    set i | 0 <= i < |rows| && Candidate(rows[i], user, conv) && Claimable(rows[i], now)
  }

  /** An admitted row stops being claimable at this instant, because the lease lasts. */
  lemma TriedShrinks(env: Env, w: World, session: Session, i: nat, now: int, conv: nat)
    requires i < |w.rows| && w.rows[i].messageId in w.ledger.messages && env.cfg.leaseMs > 0
    requires Candidate(w.rows[i], session.user, conv) && Claimable(w.rows[i], now)
    requires env.answers(|w.log|) == Accepted
    ensures |ClaimableIn(Tried(env, w, session, i, now).rows, session.user, conv, now)|
          < |ClaimableIn(w.rows, session.user, conv, now)|
  {
    var before := ClaimableIn(w.rows, session.user, conv, now);
    var after := ClaimableIn(Tried(env, w, session, i, now).rows, session.user, conv, now);
    assert after == before - {i};
  }

  /** The inner loop over one conversation; the flag says the session was paused. */
  function ClaimConversation(env: Env, w: World, session: Session, conv: nat, now: int): (World, bool)
    requires env.cfg.leaseMs > 0
    decreases |ClaimableIn(w.rows, session.user, conv, now)|
  {
    var h := Head(w, session.user, conv);
    if h < 0 || !Claimable(w.rows[h], now) || w.rows[h].messageId !in w.ledger.messages then (w, false)
    else
      var w' := Tried(env, w, session, h, now);
      match env.answers(|w.log|)
      case Accepted =>
        TriedShrinks(env, w, session, h, now, conv);
        ClaimConversation(env, w', session, conv, now)
      case Paused => (w', true)
      case Closed => (w', false)
  }

  function ClaimConversations(env: Env, w: World, session: Session, convs: seq<nat>, now: int): World
    requires env.cfg.leaseMs > 0
    decreases |convs|
  {
    if convs == [] then w
    else
      var (w', stopped) := ClaimConversation(env, w, session, convs[0], now);
      if stopped then w' else ClaimConversations(env, w', session, convs[1..], now)
  }

  function InsertAscending(s: seq<nat>, x: nat): seq<nat> {
    if s == [] || x < s[0] then [x] + s
    else if x == s[0] then s
    else [s[0]] + InsertAscending(s[1..], x)
  }

  /** The conversations in which the user has open rows among the first n, ascending. */
  function OpenConversations(rows: seq<Delivery>, user: nat, n: nat): seq<nat>
    requires n <= |rows|
  {
    if n == 0 then []
    else
      var s := OpenConversations(rows, user, n - 1);
      if rows[n - 1].recipient == user && rows[n - 1].Live() then InsertAscending(s, rows[n - 1].conversation) else s
  }

  function ClaimFor(env: Env, w: World, session: Session): World
    requires env.cfg.leaseMs > 0
  {
    if session in w.coord.paused then w
    else
      ClaimConversations(env, w.(clockReads := w.clockReads + 1), session,
                         OpenConversations(w.rows, session.user, |w.rows|), env.clock(w.clockReads))
  }

  // ---- Releasing leases ----

  /** The row back in Pending, its lease cleared. */
  function Unleased(d: Delivery): Delivery {
    d.(state := Pending, leaseOwner := NO_SESSION, leaseBoot := 0, leaseUntil := 0)
  }

  function ReleaseRow(env: Env, w: World, i: nat, d: Delivery): World
    requires i < |w.rows|
  {
    w.(rows := w.rows[i := Unleased(d)],
       recorder := Recorder.Transition(env.metricsClock, w.recorder, d.Id(), InFlight, Pending))
  }

  /** In flight for this user, but not under exactly this session of this process. */
  predicate Stale(w: World, d: Delivery, session: Session) {
    && d.recipient == session.user && d.state == InFlight && d.leaseOwner.user == session.user
    && !(d.leaseOwner == session && d.leaseBoot == w.coord.boot)
  }

  function FenceFrom(env: Env, w: World, session: Session, i: nat): World
    requires i <= |w.rows|
    decreases |w.rows| - i
  {
    if i == |w.rows| then w
    else if Stale(w, w.rows[i], session) then
      FenceFrom(env, ReleaseRow(env, w, i, Filled(w.ledger.messages, w.rows[i])), session, i + 1)
    else FenceFrom(env, w, session, i + 1)
  }

  predicate HeldBy(d: Delivery, session: Session) {
    d.recipient == session.user && d.state == InFlight && d.leaseOwner == session
  }

  function CloseFrom(env: Env, w: World, session: Session, i: nat): World
    requires i <= |w.rows|
    decreases |w.rows| - i
  {
    if i == |w.rows| then w
    else if HeldBy(w.rows[i], session) then
      CloseFrom(env, ReleaseRow(env, w, i, Filled(w.ledger.messages, w.rows[i])), session, i + 1)
    else CloseFrom(env, w, session, i + 1)
  }

  // ---- Coordinator operations ----

  /** A newer login of the user is known, so this session's events are out of date. */
  predicate Outdated(c: Coordinator, session: Session) {
    session.user in c.observed && session.generation < c.observed[session.user]
  }

  function SessionAvailable(env: Env, w: World, session: Session): World
    requires env.cfg.leaseMs > 0
  {
    if Outdated(w.coord, session) then w
    else
      var w1 := w.(coord := w.coord.(observed := w.coord.observed[session.user := session.generation]));
      var w2 := FenceFrom(env, w1, session, 0);
      ClaimFor(env, w2.(coord := w2.coord.(active := w2.coord.active[session.user := session])), session)
  }

  function SessionClosed(env: Env, w: World, session: Session): World
    requires env.cfg.leaseMs > 0
  {
    var mine := session.user in w.coord.active && w.coord.active[session.user] == session;
    var w1 := w.(coord := w.coord.(paused := w.coord.paused - {session},
                                   active := if mine then w.coord.active - {session.user} else w.coord.active));
    var w2 := CloseFrom(env, w1, session, 0);
    if session.user in w1.coord.active then ClaimFor(env, w2, w1.coord.active[session.user]) else w2
  }

  function Resume(env: Env, w: World, session: Session): World
    requires env.cfg.leaseMs > 0
  {
    if session.user !in w.coord.active || w.coord.active[session.user] != session || Outdated(w.coord, session) then w
    else ClaimFor(env, w.(coord := w.coord.(paused := w.coord.paused - {session})), session)
  }

  predicate Known(rows: seq<Delivery>, messageId: nat) {
    exists i :: 0 <= i < |rows| && rows[i].messageId == messageId
  }

  function AckResultOf(w: World, acker: Session, messageId: nat): AckResult {
    if (acker.user in w.coord.active && w.coord.active[acker.user] != acker) || Outdated(w.coord, acker) then
      AckNotRecipient
    else if !Known(w.rows, messageId) then AckNotFound
    else
      var i := IndexOf(w.rows, Key(messageId, acker.user));
      if i < 0 then AckNotRecipient
      else if w.rows[i].state == Acknowledged then AckIdempotent
      else AckAcknowledged
  }

  function AckRow(env: Env, w: World, i: nat): World
    requires i < |w.rows|
  {
    var d := Filled(w.ledger.messages, w.rows[i]).(state := Acknowledged, acknowledgedAt := env.clock(w.clockReads));
    w.(rows := w.rows[i := d], clockReads := w.clockReads + 1, acks := w.acks + {d.Id()})
  }

  function Acknowledge(env: Env, w: World, acker: Session, messageId: nat): World
    requires env.cfg.leaseMs > 0
  {
    if AckResultOf(w, acker, messageId) != AckAcknowledged then w
    else
      var i := IndexOf(w.rows, Key(messageId, acker.user));
      var w1 := ClaimFor(env, AckRow(env, w, i), acker);
      w1.(recorder := Recorder.Finished(env.metricsClock, w1.recorder, Key(messageId, acker.user),
                                        w.rows[i].state, Acknowledged))
  }

  function OnAccepted(env: Env, w: World, recipients: seq<nat>): World
    requires env.cfg.leaseMs > 0
    decreases |recipients|
  {
    if recipients == [] then w
    else if recipients[0] in w.coord.active then
      OnAccepted(env, ClaimFor(env, w, w.coord.active[recipients[0]]), recipients[1..])
    else OnAccepted(env, w, recipients[1..])
  }

  // ---- Retry scan ----

  predicate RetryDue(d: Delivery, now: int) {
    d.state == InFlight && d.nextAttemptAt > 0 && d.nextAttemptAt <= now
  }

  /** Positions of the first `limit` due rows from position i on. */
  function DueFrom(rows: seq<Delivery>, i: nat, now: int, limit: nat): seq<nat>
    requires i <= |rows|
    decreases |rows| - i
  {
    if i == |rows| || limit == 0 then []
    else if RetryDue(rows[i], now) then [i] + DueFrom(rows, i + 1, now, limit - 1)
    else DueFrom(rows, i + 1, now, limit)
  }

  /** Its recipient is online, not paused, and holds the lease itself. */
  predicate Retriable(c: Coordinator, d: Delivery) {
    d.recipient in c.active && c.active[d.recipient] !in c.paused && d.leaseOwner == c.active[d.recipient]
  }

  function RollBack(env: Env, w: World, due: seq<nat>): World
    requires forall k :: 0 <= k < |due| ==> due[k] < |w.rows|
    decreases |due|
  {
    if due == [] then w
    else if Retriable(w.coord, w.rows[due[0]]) then
      RollBack(env, ReleaseRow(env, w, due[0], w.rows[due[0]]), due[1..])
    else RollBack(env, w, due[1..])
  }

  function InsertSession(s: seq<Session>, x: Session): seq<Session> {
    if s == [] || SessionLess(x, s[0]) then [x] + s
    else if x == s[0] then s
    else [s[0]] + InsertSession(s[1..], x)
  }

  /** The sessions whose due rows were rolled back, in order. */
  function Retriers(c: Coordinator, due: seq<Delivery>): seq<Session> {
    if due == [] then []
    else
      var last := due[|due| - 1];
      var s := Retriers(c, due[..|due| - 1]);
      if Retriable(c, last) then InsertSession(s, c.active[last.recipient]) else s
  }

  function ClaimEach(env: Env, w: World, sessions: seq<Session>): World
    requires env.cfg.leaseMs > 0
    decreases |sessions|
  {
    if sessions == [] then w else ClaimEach(env, ClaimFor(env, w, sessions[0]), sessions[1..])
  }

  lemma DueInRange(rows: seq<Delivery>, i: nat, now: int, limit: nat)
    requires i <= |rows|
    ensures var due := DueFrom(rows, i, now, limit);
      && |due| <= limit
      && (forall k :: 0 <= k < |due| ==> i <= due[k] < |rows| && RetryDue(rows[due[k]], now))
      && (forall k, m :: 0 <= k < m < |due| ==> due[k] < due[m])
    decreases |rows| - i
  {}

  function RowsAt(rows: seq<Delivery>, at: seq<nat>): seq<Delivery>
    requires forall k :: 0 <= k < |at| ==> at[k] < |rows|
  {
    seq(|at|, k requires 0 <= k < |at| => rows[at[k]])
  }

  function RetryScan(env: Env, w: World, now: int): World
    requires env.cfg.leaseMs > 0
  {
    var w0 := w.(coord := w.coord.(tickNexts := []));
    var due := DueFrom(w.rows, 0, now, env.cfg.retryBatchLimit);
    DueInRange(w.rows, 0, now, env.cfg.retryBatchLimit);
    ClaimEach(env, RollBack(env, w0, due), Retriers(w0.coord, RowsAt(w.rows, due)))
  }

  // ---- Expiry and cleanup ----

  predicate ExpiryDue(d: Delivery, now: int) {
    d.Live() && d.expiresAt > 0 && now > d.expiresAt
  }

  datatype Expiry = Expiry(key: Key, from: DeliveryState)

  /** Expires up to `limit` overdue rows from position i on and reports them in order. */
  function ExpireFrom(rows: seq<Delivery>, i: nat, now: int, limit: nat): (seq<Delivery>, seq<Expiry>)
    requires i <= |rows|
    decreases |rows| - i
  {
    if i == |rows| || limit == 0 then (rows, [])
    else if ExpiryDue(rows[i], now) then
      var (rows', list) := ExpireFrom(rows[i := rows[i].(state := Expired)], i + 1, now, limit - 1);
      (rows', [Expiry(rows[i].Id(), rows[i].state)] + list)
    else ExpireFrom(rows, i + 1, now, limit)
  }

  function RecordExpiries(env: Env, r: Recorder.State, list: seq<Expiry>): Recorder.State
    decreases |list|
  {
    if list == [] then r
    else
      RecordExpiries(env, Recorder.Finished(env.metricsClock, r, list[0].key, list[0].from, Expired), list[1..])
  }

  function ExpireOverdue(env: Env, w: World, now: int): World {
    var (rows, list) := ExpireFrom(w.rows, 0, now, env.cfg.retryBatchLimit);
    w.(rows := rows, recorder := RecordExpiries(env, w.recorder, list))
  }

  predicate AckedPast(d: Delivery, ackedBefore: int) {
    d.state == Acknowledged && 0 < d.acknowledgedAt <= ackedBefore
  }

  predicate ExpiredPast(d: Delivery, expiredBefore: int) {
    d.state == Expired && 0 < d.expiresAt <= expiredBefore
  }

  /** Removes up to `a` acknowledged and up to `e` expired rows past retention, from position i on. */
  function CleanFrom(rows: seq<Delivery>, i: nat, ackedBefore: int, expiredBefore: int, a: nat, e: nat):
      (seq<Delivery>, seq<Removal>)
    requires i <= |rows|
    decreases |rows| - i
  {
    if i == |rows| then (rows, [])
    else if (AckedPast(rows[i], ackedBefore) && a > 0) || (ExpiredPast(rows[i], expiredBefore) && e > 0) then
      var acked := AckedPast(rows[i], ackedBefore) && a > 0;
      var (rows', gone) := CleanFrom(rows[..i] + rows[i + 1..], i, ackedBefore, expiredBefore,
                                     if acked then a - 1 else a, if acked then e else e - 1);
      (rows', [Removal(rows[i], ackedBefore, expiredBefore)] + gone)
    else CleanFrom(rows, i + 1, ackedBefore, expiredBefore, a, e)
  }

  function Cleanup(env: Env, w: World, now: int): World {
    if now - w.lastCleanup < env.cfg.cleanupCycleMs then w
    else
      var (rows, gone) := CleanFrom(w.rows, 0, now - env.cfg.ackedRetentionMs, now - env.cfg.expiredRetentionMs,
                                    env.cfg.cleanupBatch, env.cfg.cleanupBatch);
      w.(rows := rows, cleaned := w.cleaned + gone, lastCleanup := now)
  }

  function Tick(env: Env, w: World): World
    requires env.cfg.leaseMs > 0
  {
    var now := env.clock(w.clockReads);
    RetryScan(env, Cleanup(env, ExpireOverdue(env, w.(clockReads := w.clockReads + 1), now), now), now)
  }

  // ---- Accepting ----

  function AcceptOutcomeOf(env: Env, w: World, sender: Session, cmd: Command): AcceptOutcome {
    var k := Ledger.AcceptKey(sender.user, cmd.clientId);
    if k in w.ledger.accepted then
      var m := w.ledger.accepted[k];
      if SamePayload(m.command, cmd) then Taken(m.id, m.conversation, m.sequence, true) else IdempotencyConflict
    else
      var m := Ledger.AcceptedMessage(w.ledger, sender.user, cmd, env.clock(w.clockReads));
      Taken(m.id, m.conversation, m.sequence, false)
  }

  /** The durable part of a first accept: message, rows, outbox event, and their metrics. */
  function Enrol(env: Env, w: World, sender: nat, cmd: Command): World {
    var acceptedAt := env.clock(w.clockReads);
    var m := Ledger.AcceptedMessage(w.ledger, sender, cmd, acceptedAt);
    var expiresAt := env.clock(w.clockReads + 1) + env.cfg.messageRetentionMs;
    w.(ledger := Ledger.Accepted(w.ledger, sender, cmd, acceptedAt),
       rows := InsertRows(w.rows, m, RecipientsFor(cmd), expiresAt),
       recorder := RecordCreated(w.recorder, m, RecipientsFor(cmd)),
       clockReads := w.clockReads + 2)
  }

  function Accept(env: Env, w: World, sender: Session, cmd: Command): World
    requires env.cfg.leaseMs > 0
  {
    var k := Ledger.AcceptKey(sender.user, cmd.clientId);
    if k in w.ledger.accepted then
      var m := w.ledger.accepted[k];
      if SamePayload(m.command, cmd) then OnAccepted(env, w, RecipientsFor(m.command)) else w
    else OnAccepted(env, Enrol(env, w, sender.user, cmd), RecipientsFor(cmd))
  }

  // ---- Runs ----

  /** One public operation, or the process dying and coming back under a boot id. */
  datatype Op =
    | OpAccept(sender: Session, cmd: Command)
    | OpAcknowledge(acker: Session, messageId: nat)
    | OpAvailable(session: Session)
    | OpClosed(session: Session)
    | OpResume(session: Session)
    | OpWakeup(recipients: seq<nat>)
    | OpTick
    | OpRestart(boot: nat)

  function Fresh(boot: nat): Coordinator {
    Coordinator(boot, {}, map[], map[], [])
  }

  function Initial(boot: nat): World {
    World(Ledger.EMPTY, [], Fresh(boot), [], 0, Recorder.EMPTY, 0, [], {})
  }

  function Step(env: Env, w: World, op: Op): World
    requires env.cfg.leaseMs > 0
  {
    match op
    case OpAccept(sender, cmd) => Accept(env, w, sender, cmd)
    case OpAcknowledge(acker, id) => Acknowledge(env, w, acker, id)
    case OpAvailable(session) => Tick(env, SessionAvailable(env, w, session))
    case OpClosed(session) => SessionClosed(env, w, session)
    case OpResume(session) => Resume(env, w, session)
    case OpWakeup(recipients) => OnAccepted(env, w, recipients)
    case OpTick => Tick(env, w)
    case OpRestart(boot) => w.(coord := Fresh(boot), recorder := Recorder.EMPTY, lastCleanup := 0)
  }

  function Run(env: Env, w: World, ops: seq<Op>): World
    requires env.cfg.leaseMs > 0
  {
    if ops == [] then w else Step(env, Run(env, w, ops[..|ops| - 1]), ops[|ops| - 1])
  }
}
