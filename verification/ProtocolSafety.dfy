/**
  The invariant of the delivery protocol, kept by every atomic change to a row
  and therefore by every operation.
*/
module ProtocolSafety {
  import opened Domain
  import opened Protocol
  import Ledger

  // ---- The invariant, component by component ----

  ghost predicate Sorted(rows: seq<Delivery>) {
    forall i, j :: 0 <= i < j < |rows| ==> KeyLess(rows[i].Id(), rows[j].Id())
  }

  /** Every row belongs to a stored message and one of that message's recipients. */
  ghost predicate Filed(rows: seq<Delivery>, messages: map<nat, Message>) {
    forall i :: 0 <= i < |rows| ==>
      && rows[i].messageId in messages
      && rows[i].conversation == messages[rows[i].messageId].conversation
      && rows[i].recipient in RecipientsFor(messages[rows[i].messageId].command)
  }

  /** A row in flight is leased to a session of its recipient, and is never a legacy one. */
  ghost predicate Leased(rows: seq<Delivery>, messages: map<nat, Message>) {
    forall i :: 0 <= i < |rows| && rows[i].state == InFlight ==>
      rows[i].leaseOwner.user == rows[i].recipient && !LegacyRow(messages, rows[i])
  }

  /** A row in flight precedes every other open row of its recipient in its conversation. */
  ghost predicate HeadOfLine(rows: seq<Delivery>, messages: map<nat, Message>) {
    forall i, j :: 0 <= i < |rows| && 0 <= j < |rows| && i != j && rows[i].state == InFlight
      && Candidate(rows[j], rows[i].recipient, rows[i].conversation)
      ==> SequenceOf(messages, rows[i]) < SequenceOf(messages, rows[j])
  }

  /** An active session is the newest observed, and holds every lease of its user. */
  ghost predicate Fenced(rows: seq<Delivery>, c: Coordinator) {
    && (forall u :: u in c.active ==>
          c.active[u].user == u && u in c.observed && c.observed[u] == c.active[u].generation)
    && (forall i :: 0 <= i < |rows| && rows[i].state == InFlight && rows[i].recipient in c.active ==>
          rows[i].leaseOwner == c.active[rows[i].recipient] && rows[i].leaseBoot == c.boot)
  }

  ghost predicate SameLane(a: Attempt, b: Attempt) {
    a.recipient == b.recipient && a.conversation == b.conversation
  }

  /** The attempt hands over what the message says, to one of its recipients. */
  predicate Carries(a: Attempt, m: Message) {
    && a.sender == m.sender && a.kind == m.command.kind && a.directRecipient == m.command.directRecipient
    && a.groupId == m.command.groupId && a.content == m.command.content && a.recipient in RecipientsFor(m.command)
  }

  ghost predicate LogFiled(log: seq<Attempt>, messages: map<nat, Message>) {
    forall e :: 0 <= e < |log| ==>
      && log[e].messageId in messages
      && log[e].conversation == messages[log[e].messageId].conversation
      && log[e].sequence == messages[log[e].messageId].sequence
      && Carries(log[e], messages[log[e].messageId])
  }

  /** Within one recipient's conversation, attempts never go back to an earlier message. */
  ghost predicate LogOrdered(log: seq<Attempt>) {
    forall e, f :: 0 <= e < f < |log| && SameLane(log[e], log[f]) ==> log[e].sequence <= log[f].sequence
  }

  /** Nothing attempted so far lies beyond a row that is still open. */
  ghost predicate LogBehind(log: seq<Attempt>, rows: seq<Delivery>, messages: map<nat, Message>) {
    forall e, i :: 0 <= e < |log| && 0 <= i < |rows| && Candidate(rows[i], log[e].recipient, log[e].conversation)
      ==> log[e].sequence <= SequenceOf(messages, rows[i])
  }

  /** How often the sink admitted an attempt of this delivery. */
  function Admissions(log: seq<Attempt>, k: Key): nat {
    if log == [] then 0
    else
      var last := log[|log| - 1];
      Admissions(log[..|log| - 1], k) + if last.Id() == k && last.answer == Accepted then 1 else 0
  }

  /** The attempt count of a row is the number of admissions. */
  ghost predicate Counted(rows: seq<Delivery>, log: seq<Attempt>) {
    forall i :: 0 <= i < |rows| ==> rows[i].attempts == Admissions(log, rows[i].Id())
  }

  /** Attempt numbers count the admissions before them. */
  ghost predicate LogNumbered(log: seq<Attempt>) {
    forall e :: 0 <= e < |log| ==> log[e].number == Admissions(log[..e], log[e].Id()) + 1
  }

  /** A legacy delivery is admitted at most once, and is acknowledged as soon as it is. */
  ghost predicate LegacyOnce(rows: seq<Delivery>, log: seq<Attempt>, messages: map<nat, Message>) {
    && (forall i :: 0 <= i < |rows| && LegacyRow(messages, rows[i]) && rows[i].attempts > 0 ==>
          rows[i].state == Acknowledged)
    && (forall k: Key :: k.message in messages && IsLegacy(messages[k.message].command.clientId) ==>
          Admissions(log, k) <= 1)
  }

  /** An acknowledged row was acknowledged by its recipient, or is an admitted legacy one. */
  ghost predicate Attributed(rows: seq<Delivery>, acks: set<Key>, messages: map<nat, Message>) {
    forall i :: 0 <= i < |rows| && rows[i].state == Acknowledged ==>
      rows[i].Id() in acks || (LegacyRow(messages, rows[i]) && rows[i].attempts > 0)
  }

  ghost predicate WasCleaned(cleaned: seq<Removal>, k: Key) {
    exists r :: 0 <= r < |cleaned| && cleaned[r].row.Id() == k
  }

  /** Every accepted (message, recipient) has its row, or had it until a cleanup; never both. */
  ghost predicate Owed(rows: seq<Delivery>, cleaned: seq<Removal>, messages: map<nat, Message>) {
    && (forall id, u :: id in messages && u in RecipientsFor(messages[id].command) ==>
          IndexOf(rows, Key(id, u)) >= 0 || WasCleaned(cleaned, Key(id, u)))
    && (forall r :: 0 <= r < |cleaned| ==>
          cleaned[r].row.messageId in messages && IndexOf(rows, cleaned[r].row.Id()) < 0)
    && (forall r :: 0 <= r < |cleaned| ==>
          AckedPast(cleaned[r].row, cleaned[r].ackedBefore) || ExpiredPast(cleaned[r].row, cleaned[r].expiredBefore))
  }

  /** The delivery side: table, lanes, fencing, log, counts and obligations. */
  ghost predicate Deliveries(w: World) {
    var m := w.ledger.messages;
    && Sorted(w.rows) && Filed(w.rows, m)
    && Leased(w.rows, m) && HeadOfLine(w.rows, m) && Fenced(w.rows, w.coord)
    && LogFiled(w.log, m) && LogOrdered(w.log) && LogBehind(w.log, w.rows, m)
    && Counted(w.rows, w.log) && LogNumbered(w.log) && LegacyOnce(w.rows, w.log, m)
    && Attributed(w.rows, w.acks, m) && Owed(w.rows, w.cleaned, m)
  }

  ghost predicate Inv(w: World) {
    Ledger.Exact(w.ledger) && Deliveries(w)
  }

  // ---- How a row may change ----

  /** What the later state of a row keeps of the earlier one. */
  ghost predicate RowKept(d: Delivery, d': Delivery) {
    && d'.messageId == d.messageId && d'.conversation == d.conversation && d'.recipient == d.recipient
    && d'.expiresAt == d.expiresAt && d.attempts <= d'.attempts
    && (d.state == Acknowledged ==> d'.state == Acknowledged && d'.acknowledgedAt == d.acknowledgedAt)
    && (d.state == Expired ==> d'.state == Expired || d'.state == Acknowledged)
  }

  /** The same rows in the same places, each kept. */
  ghost predicate RowsKept(rows: seq<Delivery>, rows': seq<Delivery>) {
    |rows'| == |rows| && forall i :: 0 <= i < |rows| ==> RowKept(rows[i], rows'[i])
  }

  lemma RowsKeptTrans(a: seq<Delivery>, b: seq<Delivery>, c: seq<Delivery>)
    requires RowsKept(a, b) && RowsKept(b, c)
    ensures RowsKept(a, c)
  {
    forall i | 0 <= i < |a| ensures RowKept(a[i], c[i]) {
      assert RowKept(a[i], b[i]) && RowKept(b[i], c[i]);
    }
  }

  lemma SortedIndex(rows: seq<Delivery>, i: nat)
    requires Sorted(rows) && i < |rows|
    ensures IndexOf(rows, rows[i].Id()) == i
  {
    assert forall a, b :: 0 <= a < b < |rows| ==> rows[a].Id() != rows[b].Id();
  }

  lemma {:induction false} KeptIndex(rows: seq<Delivery>, rows': seq<Delivery>, k: Key)
    requires RowsKept(rows, rows')
    ensures IndexOf(rows', k) == IndexOf(rows, k)
  {
    if rows != [] {
      assert RowKept(rows[0], rows'[0]);
      assert RowsKept(rows[1..], rows'[1..]) by {
        forall i | 0 <= i < |rows[1..]| ensures RowKept(rows[1..][i], rows'[1..][i]) {
          assert RowKept(rows[i + 1], rows'[i + 1]);
        }
      }
      KeptIndex(rows[1..], rows'[1..], k);
    }
  }

  /** Keys, conversations and obligations do not depend on what a kept row's state is. */
  lemma KeptTable(rows: seq<Delivery>, rows': seq<Delivery>, cleaned: seq<Removal>, m: map<nat, Message>)
    requires RowsKept(rows, rows') && Sorted(rows) && Filed(rows, m) && Owed(rows, cleaned, m)
    ensures Sorted(rows') && Filed(rows', m) && Owed(rows', cleaned, m)
  {
    forall i | 0 <= i < |rows| ensures rows'[i].Id() == rows[i].Id() && rows'[i].conversation == rows[i].conversation {
      assert RowKept(rows[i], rows'[i]);
    }
    forall k ensures IndexOf(rows', k) == IndexOf(rows, k) {
      KeptIndex(rows, rows', k);
    }
  }

  lemma DistinctSequences(rows: seq<Delivery>, m: map<nat, Message>, i: nat, j: nat)
    requires Sorted(rows) && Filed(rows, m) && Ledger.Ascending(m) && i < |rows| && j < |rows| && i != j
    requires rows[i].recipient == rows[j].recipient && rows[i].conversation == rows[j].conversation
    ensures SequenceOf(m, rows[i]) != SequenceOf(m, rows[j])
  {
    if i < j {
      assert KeyLess(rows[i].Id(), rows[j].Id());
    } else {
      assert KeyLess(rows[j].Id(), rows[i].Id());
    }
  }

  lemma AdmissionsAppend(log: seq<Attempt>, a: Attempt, k: Key)
    ensures Admissions(log + [a], k) == Admissions(log, k) + if a.Id() == k && a.answer == Accepted then 1 else 0
  {
    assert (log + [a])[..|log|] == log;
  }

  lemma {:induction false} NoAdmissions(log: seq<Attempt>, k: Key)
    requires forall e :: 0 <= e < |log| ==> log[e].Id() != k
    ensures Admissions(log, k) == 0
  {
    if log != [] {
      NoAdmissions(log[..|log| - 1], k);
    }
  }

  // ---- Softening: leases released, rows acknowledged or expired ----

  /** Rows either unchanged or moved out of flight, with their attempt count kept. */
  ghost predicate Softened(rows: seq<Delivery>, rows': seq<Delivery>, acks: set<Key>) {
    && RowsKept(rows, rows')
    && forall i :: 0 <= i < |rows| && rows'[i] != rows[i] ==>
         && rows'[i].state != InFlight && (rows'[i].Live() ==> rows[i].Live())
         && rows'[i].attempts == rows[i].attempts
         && (rows'[i].state == Acknowledged ==> rows'[i].Id() in acks)
  }

  lemma SoftenedRow(rows: seq<Delivery>, rows': seq<Delivery>, acks: set<Key>, m: map<nat, Message>, i: nat)
    requires Softened(rows, rows', acks) && Filed(rows, m) && i < |rows|
    ensures RowKept(rows[i], rows'[i])
    ensures rows'[i].state == InFlight ==> rows'[i] == rows[i]
    ensures rows'[i].Live() ==> rows[i].Live()
    ensures rows'[i].attempts == rows[i].attempts && rows'[i].Id() == rows[i].Id()
    ensures SequenceOf(m, rows'[i]) == SequenceOf(m, rows[i])
    ensures LegacyRow(m, rows'[i]) == LegacyRow(m, rows[i])
  {}

  lemma SoftenedLanes(rows: seq<Delivery>, rows': seq<Delivery>, acks: set<Key>, m: map<nat, Message>, c: Coordinator)
    requires Softened(rows, rows', acks) && Filed(rows, m)
    requires Leased(rows, m) && HeadOfLine(rows, m)
    ensures Leased(rows', m) && HeadOfLine(rows', m)
    ensures Fenced(rows, c) ==> Fenced(rows', c)
  {
    forall i | 0 <= i < |rows| ensures rows'[i].state == InFlight ==> rows'[i] == rows[i] {
      SoftenedRow(rows, rows', acks, m, i);
    }
    forall i, j | 0 <= i < |rows| && 0 <= j < |rows| && i != j && rows'[i].state == InFlight
      && Candidate(rows'[j], rows'[i].recipient, rows'[i].conversation)
      ensures SequenceOf(m, rows'[i]) < SequenceOf(m, rows'[j])
    {
      SoftenedRow(rows, rows', acks, m, i);
      SoftenedRow(rows, rows', acks, m, j);
    }
  }

  lemma SoftenedLog(rows: seq<Delivery>, rows': seq<Delivery>, acks: set<Key>, m: map<nat, Message>, log: seq<Attempt>)
    requires Softened(rows, rows', acks) && Filed(rows, m)
    requires LogBehind(log, rows, m) && Counted(rows, log) && LegacyOnce(rows, log, m)
    ensures LogBehind(log, rows', m) && Counted(rows', log) && LegacyOnce(rows', log, m)
  {
    forall e, i | 0 <= e < |log| && 0 <= i < |rows'| && Candidate(rows'[i], log[e].recipient, log[e].conversation)
      ensures log[e].sequence <= SequenceOf(m, rows'[i])
    {
      SoftenedRow(rows, rows', acks, m, i);
    }
    forall i | 0 <= i < |rows'|
      ensures rows'[i].attempts == Admissions(log, rows'[i].Id())
      ensures LegacyRow(m, rows'[i]) && rows'[i].attempts > 0 ==> rows'[i].state == Acknowledged
    {
      SoftenedRow(rows, rows', acks, m, i);
    }
  }

  lemma SoftenedAttributed(rows: seq<Delivery>, rows': seq<Delivery>, old_: set<Key>, acks: set<Key>,
                           m: map<nat, Message>)
    requires Softened(rows, rows', acks) && Filed(rows, m) && Attributed(rows, old_, m) && old_ <= acks
    ensures Attributed(rows', acks, m)
  {
    forall i | 0 <= i < |rows'| && rows'[i].state == Acknowledged
      ensures rows'[i].Id() in acks || (LegacyRow(m, rows'[i]) && rows'[i].attempts > 0)
    {
      SoftenedRow(rows, rows', acks, m, i);
    }
  }

  /** Any softening of the table keeps the invariant. */
  lemma SoftenedInv(w: World, w': World)
    requires Inv(w) && Softened(w.rows, w'.rows, w'.acks) && w.acks <= w'.acks
    requires w'.ledger == w.ledger && w'.log == w.log && w'.cleaned == w.cleaned
    requires Fenced(w.rows, w'.coord) || Fenced(w'.rows, w'.coord)
    ensures Inv(w')
  {
    var m := w.ledger.messages;
    KeptTable(w.rows, w'.rows, w.cleaned, m);
    SoftenedLanes(w.rows, w'.rows, w'.acks, m, w'.coord);
    SoftenedLog(w.rows, w'.rows, w'.acks, m, w.log);
    SoftenedAttributed(w.rows, w'.rows, w.acks, w'.acks, m);
  }

  // ---- Claiming ----

  lemma TriedLog(log: seq<Attempt>, a: Attempt, rows: seq<Delivery>, m: map<nat, Message>)
    requires LogFiled(log, m) && LogOrdered(log) && LogBehind(log, rows, m) && LogNumbered(log)
    requires a.messageId in m && a.conversation == m[a.messageId].conversation && a.sequence == m[a.messageId].sequence
    requires Carries(a, m[a.messageId])
    requires exists i ::
      0 <= i < |rows| && Candidate(rows[i], a.recipient, a.conversation) && SequenceOf(m, rows[i]) == a.sequence
    requires forall i :: 0 <= i < |rows| && Candidate(rows[i], a.recipient, a.conversation) ==>
      a.sequence <= SequenceOf(m, rows[i])
    requires a.number == Admissions(log, a.Id()) + 1
    ensures LogFiled(log + [a], m) && LogOrdered(log + [a]) && LogBehind(log + [a], rows, m) && LogNumbered(log + [a])
  {
    var log' := log + [a];
    forall e | 0 <= e < |log'| ensures log'[e].number == Admissions(log'[..e], log'[e].Id()) + 1 {
      assert log'[..e] == if e < |log| then log[..e] else log;
    }
  }

  /** The session a claim runs for is the active one, if its user has one. */
  ghost predicate MayClaim(c: Coordinator, session: Session) {
    session.user in c.active ==> c.active[session.user] == session
  }

  lemma ClaimedLanes(rows: seq<Delivery>, m: map<nat, Message>, c: Coordinator, h: nat, d: Delivery)
    requires Sorted(rows) && Filed(rows, m) && Ledger.Ascending(m) && h < |rows| && rows[h].Live()
    requires Leased(rows, m) && HeadOfLine(rows, m) && Fenced(rows, c)
    requires forall j :: 0 <= j < |rows| && Candidate(rows[j], rows[h].recipient, rows[h].conversation) ==>
               SequenceOf(m, rows[h]) <= SequenceOf(m, rows[j])
    requires RowKept(rows[h], d) && MayClaim(c, d.leaseOwner)
    requires d.leaseOwner.user == d.recipient && d.leaseBoot == c.boot
    requires d.state == if LegacyRow(m, d) then Acknowledged else InFlight
    ensures Leased(rows[h := d], m) && HeadOfLine(rows[h := d], m) && Fenced(rows[h := d], c)
  {
    var rows' := rows[h := d];
    forall i, j | 0 <= i < |rows| && 0 <= j < |rows| && i != j && rows'[i].state == InFlight
      && Candidate(rows'[j], rows'[i].recipient, rows'[i].conversation)
      ensures SequenceOf(m, rows'[i]) < SequenceOf(m, rows'[j])
    {
      if i == h || j == h {
        DistinctSequences(rows, m, i, j);
      }
    }
  }

  lemma ClaimedCounted(rows: seq<Delivery>, log: seq<Attempt>, h: nat, d: Delivery, a: Attempt)
    requires Sorted(rows) && h < |rows| && Counted(rows, log)
    requires d.Id() == rows[h].Id() == a.Id() && a.answer == Accepted && d.attempts == rows[h].attempts + 1
    ensures Counted(rows[h := d], log + [a])
  {
    var rows' := rows[h := d];
    forall i | 0 <= i < |rows| ensures rows'[i].attempts == Admissions(log + [a], rows'[i].Id()) {
      AdmissionsAppend(log, a, rows[i].Id());
      SortedIndex(rows, i);
      SortedIndex(rows, h);
    }
  }

  lemma ClaimedLegacy(rows: seq<Delivery>, m: map<nat, Message>, log: seq<Attempt>, h: nat, d: Delivery, a: Attempt)
    requires h < |rows| && rows[h].Live() && Counted(rows, log) && LegacyOnce(rows, log, m)
    requires d.Id() == rows[h].Id() == a.Id() && (LegacyRow(m, d) ==> d.state == Acknowledged)
    ensures LegacyOnce(rows[h := d], log + [a], m)
  {
    forall k: Key | k.message in m && IsLegacy(m[k.message].command.clientId) ensures Admissions(log + [a], k) <= 1 {
      AdmissionsAppend(log, a, k);
      assert Admissions(log, k) <= 1;
      if k == a.Id() {
        assert LegacyRow(m, rows[h]) && Admissions(log, k) == 0;
      }
    }
  }

  lemma RefusedTally(rows: seq<Delivery>, m: map<nat, Message>, log: seq<Attempt>, a: Attempt)
    requires Counted(rows, log) && LegacyOnce(rows, log, m) && a.answer != Accepted
    ensures Counted(rows, log + [a]) && LegacyOnce(rows, log + [a], m)
  {
    forall i | 0 <= i < |rows| ensures rows[i].attempts == Admissions(log + [a], rows[i].Id()) {
      AdmissionsAppend(log, a, rows[i].Id());
    }
    forall k: Key | k.message in m && IsLegacy(m[k.message].command.clientId) ensures Admissions(log + [a], k) <= 1 {
      AdmissionsAppend(log, a, k);
    }
  }

  lemma ClaimedBehind(log: seq<Attempt>, rows: seq<Delivery>, m: map<nat, Message>, h: nat, d: Delivery)
    requires h < |rows| && rows[h].Live() && LogBehind(log, rows, m) && RowKept(rows[h], d) && d.messageId in m
    ensures LogBehind(log, rows[h := d], m)
  {}

  /** What a claim leaves alone: everything but rows, log, pauses, metrics and the clock. */
  ghost predicate Claims(w: World, w': World) {
    && RowsKept(w.rows, w'.rows) && w.log <= w'.log
    && w'.ledger == w.ledger && w'.cleaned == w.cleaned && w'.acks == w.acks && w'.lastCleanup == w.lastCleanup
    && w'.coord.boot == w.coord.boot && w'.coord.active == w.coord.active && w'.coord.observed == w.coord.observed
  }

  lemma ClaimsTrans(a: World, b: World, c: World)
    requires Claims(a, b) && Claims(b, c)
    ensures Claims(a, c)
  {
    RowsKeptTrans(a.rows, b.rows, c.rows);
  }

  /** The facts about a claimed row and its attempt that the invariant depends on. */
  ghost predicate ClaimOf(w: World, session: Session, h: nat, d: Delivery, a: Attempt)
    requires h < |w.rows|
  {
    var m := w.ledger.messages;
    && RowKept(w.rows[h], d) && d.leaseOwner == session && d.leaseBoot == w.coord.boot
    && d.attempts == w.rows[h].attempts + 1 == a.number
    && (d.state == if LegacyRow(m, d) then Acknowledged else InFlight)
    && a.Id() == d.Id() && a.conversation == d.conversation && a.sequence == SequenceOf(m, w.rows[h])
    && a.messageId in m && Carries(a, m[a.messageId])
  }

  lemma TriedClaims(env: Env, w: World, session: Session, h: nat, now: int)
    requires Filed(w.rows, w.ledger.messages) && h < |w.rows| && w.rows[h].Live()
    ensures Claims(w, Tried(env, w, session, h, now))
    ensures ClaimOf(w, session, h, ClaimedRow(env, w, session, h, now), AttemptAt(w, h, env.answers(|w.log|)))
  {}

  lemma HeadLog(w: World, h: nat, user: nat, conv: nat, a: Attempt)
    requires Deliveries(w) && h == Head(w, user, conv)
    requires a.Id() == w.rows[h].Id() && a.conversation == conv
    requires a.sequence == SequenceOf(w.ledger.messages, w.rows[h])
    requires a.messageId in w.ledger.messages && Carries(a, w.ledger.messages[a.messageId])
    requires a.number == w.rows[h].attempts + 1
    ensures var log, m := w.log + [a], w.ledger.messages;
      LogFiled(log, m) && LogOrdered(log) && LogBehind(log, w.rows, m) && LogNumbered(log)
  {
    assert Candidate(w.rows[h], user, conv);
    TriedLog(w.log, a, w.rows, w.ledger.messages);
  }

  lemma ClaimedAttributed(rows: seq<Delivery>, m: map<nat, Message>, acks: set<Key>, h: nat, d: Delivery)
    requires h < |rows| && Attributed(rows, acks, m) && d.attempts > 0 && (d.state == Acknowledged ==> LegacyRow(m, d))
    ensures Attributed(rows[h := d], acks, m)
  {}

  lemma ClaimedLog(w: World, h: nat, user: nat, conv: nat, d: Delivery, a: Attempt)
    requires Deliveries(w) && h == Head(w, user, conv) && RowKept(w.rows[h], d)
    requires a.Id() == d.Id() && a.conversation == conv && a.sequence == SequenceOf(w.ledger.messages, w.rows[h])
    requires a.messageId in w.ledger.messages && Carries(a, w.ledger.messages[a.messageId])
    requires a.number == d.attempts == w.rows[h].attempts + 1 && a.answer == Accepted
    requires LegacyRow(w.ledger.messages, d) ==> d.state == Acknowledged
    ensures var log, rows, m := w.log + [a], w.rows[h := d], w.ledger.messages;
      && LogFiled(log, m) && LogOrdered(log) && LogBehind(log, rows, m)
      && Counted(rows, log) && LogNumbered(log) && LegacyOnce(rows, log, m)
  {
    var m := w.ledger.messages;
    HeadLog(w, h, user, conv, a);
    ClaimedCounted(w.rows, w.log, h, d, a);
    ClaimedLegacy(w.rows, m, w.log, h, d, a);
    ClaimedBehind(w.log + [a], w.rows, m, h, d);
  }

  lemma ClaimedInv(w: World, w': World, session: Session, h: nat, conv: nat, d: Delivery, a: Attempt)
    requires Deliveries(w) && Ledger.Ascending(w.ledger.messages) && MayClaim(w.coord, session)
    requires h == Head(w, session.user, conv) && ClaimOf(w, session, h, d, a) && a.answer == Accepted
    requires Claims(w, w') && w'.rows == w.rows[h := d] && w'.log == w.log + [a]
    ensures Deliveries(w')
  {
    var m := w.ledger.messages;
    KeptTable(w.rows, w'.rows, w.cleaned, m);
    ClaimedLanes(w.rows, m, w.coord, h, d);
    ClaimedLog(w, h, session.user, conv, d, a);
    ClaimedAttributed(w.rows, m, w.acks, h, d);
  }

  lemma RefusedInv(w: World, w': World, h: nat, user: nat, conv: nat, a: Attempt)
    requires Deliveries(w) && h == Head(w, user, conv) && a.answer != Accepted
    requires a.Id() == w.rows[h].Id() && a.conversation == conv
    requires a.sequence == SequenceOf(w.ledger.messages, w.rows[h])
    requires a.messageId in w.ledger.messages && Carries(a, w.ledger.messages[a.messageId])
    requires a.number == w.rows[h].attempts + 1
    requires Claims(w, w') && w'.rows == w.rows && w'.log == w.log + [a]
    ensures Deliveries(w')
  {
    HeadLog(w, h, user, conv, a);
    RefusedTally(w.rows, w.ledger.messages, w.log, a);
  }

  /** An attempt on the head of a lane keeps the invariant, whatever the sink answers. */
  lemma TriedInv(env: Env, w: World, session: Session, conv: nat, now: int)
    requires Inv(w) && MayClaim(w.coord, session) && Head(w, session.user, conv) >= 0
    ensures var w' := Tried(env, w, session, Head(w, session.user, conv), now); Inv(w') && Claims(w, w')
  {
    hide Sorted;
    hide Leased;
    hide HeadOfLine;
    hide Fenced;
    hide LogFiled;
    hide LogOrdered;
    hide LogBehind;
    hide Counted;
    hide LogNumbered;
    hide LegacyOnce;
    hide Attributed;
    hide Owed;
    hide RowsKept;
    var h := Head(w, session.user, conv);
    assert Candidate(w.rows[h], session.user, conv);
    TriedClaims(env, w, session, h, now);
    var w', a := Tried(env, w, session, h, now), AttemptAt(w, h, env.answers(|w.log|));
    if a.answer == Accepted {
      ClaimedInv(w, w', session, h, conv, ClaimedRow(env, w, session, h, now), a);
    } else {
      RefusedInv(w, w', h, session.user, conv, a);
    }
  }
}
