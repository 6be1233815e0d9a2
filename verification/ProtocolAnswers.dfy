/**
  What an acknowledgement and an accept answer, exactly, and what each of them
  does when it is taken.
*/
module ProtocolAnswers {
  import opened Domain
  import opened Protocol
  import opened ProtocolSafety
  import opened ProtocolRuns
  import opened ProtocolAccept
  import opened ProtocolTheorems
  import opened ProtocolClaims
  import opened ProtocolProgress
  import Ledger

  // ---- Acknowledging ----

  /** Another login of the user is active, or a newer one was seen. */
  predicate Superseded(c: Coordinator, s: Session) {
    || (s.user in c.active && c.active[s.user] != s)
    || (s.user in c.observed && s.generation < c.observed[s.user])
  }

  ghost predicate HasMessage(rows: seq<Delivery>, id: nat) {
    exists i :: 0 <= i < |rows| && rows[i].messageId == id
  }

  /** There is a row under this key, acknowledged or not as asked. */
  ghost predicate HasRow(rows: seq<Delivery>, id: nat, user: nat, acknowledged: bool) {
    exists i :: 0 <= i < |rows| && rows[i].messageId == id && rows[i].recipient == user
      && (rows[i].state == Acknowledged <==> acknowledged)
  }

  lemma RowByKey(rows: seq<Delivery>, id: nat, user: nat)
    requires Sorted(rows)
    ensures var i := IndexOf(rows, Key(id, user));
      && (i < 0 ==> !HasRow(rows, id, user, true) && !HasRow(rows, id, user, false))
      && (i >= 0 ==> HasMessage(rows, id)
                     && (HasRow(rows, id, user, true) <==> rows[i].state == Acknowledged)
                     && (HasRow(rows, id, user, false) <==> rows[i].state != Acknowledged))
  {
    var i := IndexOf(rows, Key(id, user));
    forall j | 0 <= j < |rows| && rows[j].messageId == id && rows[j].recipient == user ensures j == i {
      assert rows[j].Id() == Key(id, user);
      SortedIndex(rows, j);
    }
    if i >= 0 {
      assert rows[i].Id() == Key(id, user);
      assert rows[i].messageId == id && rows[i].recipient == user;
    }
  }

  /**
    The four answers to an ACK, exactly.  A row counts as not acknowledged when it
    is pending, in flight or expired.
  */
  lemma AckAnswersExactly(env: Env, w: World, acker: Session, id: nat)
    requires Reachable(env, w)
    ensures var r, gone := AckResultOf(w, acker, id), Superseded(w.coord, acker);
      && (r == AckNotFound <==> !gone && !HasMessage(w.rows, id))
      && (r == AckAcknowledged <==> !gone && HasRow(w.rows, id, acker.user, false))
      && (r == AckIdempotent <==> !gone && HasRow(w.rows, id, acker.user, true))
      && (r == AckNotRecipient <==>
            gone || (HasMessage(w.rows, id)
                     && !HasRow(w.rows, id, acker.user, true) && !HasRow(w.rows, id, acker.user, false)))
  {
    hide Ledger.Exact;
    ReachableInv(env, w);
    InvSorted(w);
    hide Deliveries;
    RowByKey(w.rows, id, acker.user);
    hide HasRow;
    hide IndexOf;
    assert HasMessage(w.rows, id) <==> Known(w.rows, id);
  }

  lemma InvSorted(w: World)
    requires Inv(w)
    ensures Sorted(w.rows)
  {}

  /**
    An ACK of a row that is not acknowledged yet, by a session that is not
    superseded, takes effect: the row is acknowledged at the next clock reading and
    the acknowledgement recorded; other rows change only by being admitted to the
    acker; and afterwards nothing of the acker's stays claimable that the sink did
    not refuse.
  */
  lemma AckTakesEffect(env: Env, w: World, acker: Session, i: nat)
    requires Reachable(env, w) && !Superseded(w.coord, acker)
    requires i < |w.rows| && w.rows[i].recipient == acker.user && w.rows[i].state != Acknowledged
    ensures var id := w.rows[i].messageId; var w' := Acknowledge(env, w, acker, id);
      && AckResultOf(w, acker, id) == AckAcknowledged
      && |w'.rows| == |w.rows| && w'.rows[i].Id() == w.rows[i].Id() && w'.rows[i].state == Acknowledged
      && w'.rows[i].acknowledgedAt == env.clock(w.clockReads) && w'.acks == w.acks + {Key(id, acker.user)}
      && (forall j :: 0 <= j < |w.rows| && j != i ==>
            Touched(env.cfg, w.coord.boot, acker, w.rows[j], w'.rows[j], env.clock(w.clockReads + 1)))
      && NothingLeft(w', acker, env.clock(w.clockReads + 1), |w.log|)
      && LogTo(w.log, w'.log, acker.user)
  {
    hide Deliveries;
    hide Ledger.Exact;
    hide ClaimFor;
    hide NothingLeft;
    var id := w.rows[i].messageId;
    ReachableInv(env, w);
    InvSorted(w);
    SortedIndex(w.rows, i);
    assert Known(w.rows, id);
    assert w.rows[i].Id() == Key(id, acker.user);
    AckReleasesNext(env, w, acker, id);
    var w1 := AckRow(env, w, i);
    ClaimExactly(env, w1, acker);
    ClosedStays(env.cfg, w1, ClaimFor(env, w1, acker), acker, i, env.clock(w1.clockReads));
    forall j | 0 <= j < |w.rows| && j != i ensures w1.rows[j] == w.rows[j] {}
  }

  /** A claim leaves an acknowledged row alone. */
  lemma ClosedStays(cfg: Config, w: World, w': World, session: Session, i: nat, now: int)
    requires i < |w.rows| && w.rows[i].state == Acknowledged
    requires w' == w || exists stopped :: ClaimEffect(cfg, w, w', session, now, stopped)
    ensures |w'.rows| == |w.rows| && w'.rows[i] == w.rows[i] && w'.acks == w.acks
    ensures LogTo(w.log, w'.log, session.user)
    ensures forall j :: 0 <= j < |w.rows| ==> Touched(cfg, w.coord.boot, session, w.rows[j], w'.rows[j], now)
  {}

  /** Any other ACK changes nothing. */
  lemma OtherAcksChangeNothing(env: Env, w: World, acker: Session, id: nat)
    requires Reachable(env, w)
    requires Superseded(w.coord, acker) || !HasRow(w.rows, id, acker.user, false)
    ensures Acknowledge(env, w, acker, id) == w
  {
    hide Run;
    hide HasRow;
    AckAnswersExactly(env, w, acker, id);
  }

  // ---- Accepting ----

  /** The two commands differ in content, kind or target. */
  predicate Differs(a: Command, b: Command) {
    || a.content != b.content || a.kind != b.kind
    || (a.kind == Direct && a.directRecipient != b.directRecipient)
    || (a.kind == Group && (a.groupId != b.groupId || a.members != b.members))
  }

  /**
    The answers to an accept, exactly: a new key is taken as a first message, a
    known key with another content, kind or target is a conflict, and the same
    command again is taken as a duplicate of the first.
  */
  lemma AcceptAnswersExactly(env: Env, w: World, sender: Session, cmd: Command)
    requires Reachable(env, w)
    ensures var k, o := Ledger.AcceptKey(sender.user, cmd.clientId), AcceptOutcomeOf(env, w, sender, cmd);
      && (k !in w.ledger.accepted <==> o.Taken? && !o.duplicate)
      && (o == IdempotencyConflict <==>
            k in w.ledger.accepted && Differs(w.ledger.accepted[k].command, cmd))
      && (k in w.ledger.accepted && !Differs(w.ledger.accepted[k].command, cmd) ==>
            var m := w.ledger.accepted[k]; o == Taken(m.id, m.conversation, m.sequence, true))
  {
    hide Deliveries;
    ReachableInv(env, w);
    var k := Ledger.AcceptKey(sender.user, cmd.clientId);
    if k in w.ledger.accepted {
      assert Ledger.KeyOf(w.ledger.accepted[k]) == k;
    }
  }

  /** A row as a first accept files it. */
  predicate Filing(d: Delivery, id: nat, conversation: nat, user: nat, expiresAt: int) {
    && d.messageId == id && d.conversation == conversation && d.recipient == user && d.state == Pending
    && d.attempts == 0 && d.nextAttemptAt == 0 && d.expiresAt == expiresAt
  }

  /** The users a command is for. */
  predicate IsFor(cmd: Command, user: nat) {
    if cmd.kind == Direct then user == cmd.directRecipient else user in cmd.members
  }

  /** One row for each of the users the command is for, and no other. */
  ghost predicate FiledFor(added: seq<Delivery>, cmd: Command, id: nat, conversation: nat, expiresAt: int) {
    && (forall i :: 0 <= i < |added| ==>
          IsFor(cmd, added[i].recipient) && Filing(added[i], id, conversation, added[i].recipient, expiresAt))
    && (forall i, j :: 0 <= i < j < |added| ==> added[i].recipient != added[j].recipient)
    && (forall u :: IsFor(cmd, u) ==> exists i :: 0 <= i < |added| && added[i].recipient == u)
  }

  /** The outbox event of a first accept. */
  predicate EventOf(e: OutboxEvent, cmd: Command, id: nat, at: int) {
    && e.aggregate == id && e.availableAt == at && e.leaseOwner == "" && e.attempts == 0 && e.processedAt == 0
    && e.payload == if cmd.kind == Direct then DirectPayload(cmd.directRecipient)
                    else GroupPayload(cmd.groupId, cmd.members)
  }

  /** The message is stored as it came under the next id, with one outbox event. */
  ghost predicate StoredAs(l: Ledger.Ledger, l': Ledger.Ledger, o: AcceptOutcome, sender: nat, cmd: Command, at: int) {
    && o.Taken? && !o.duplicate && o.id == |l.outbox| + 1 && o.id !in l.messages
    && l'.messages == l.messages[o.id := Message(o.id, o.conversation, o.sequence, sender, cmd, at)]
    && |l'.outbox| == |l.outbox| + 1 && l'.outbox[..|l.outbox|] == l.outbox
    && EventOf(l'.outbox[|l.outbox|], cmd, o.id, at)
  }

  /** The old rows, then one row for each user the command is for. */
  ghost predicate RowsAdded(rows: seq<Delivery>, rows': seq<Delivery>, cmd: Command, id: nat, conversation: nat,
                            expiresAt: int) {
    rows <= rows' && FiledFor(rows'[|rows|..], cmd, id, conversation, expiresAt)
  }

  lemma EnrolStores(env: Env, w: World, sender: Session, cmd: Command)
    requires Ledger.Exact(w.ledger) && Ledger.AcceptKey(sender.user, cmd.clientId) !in w.ledger.accepted
    ensures StoredAs(w.ledger, Enrol(env, w, sender.user, cmd).ledger, AcceptOutcomeOf(env, w, sender, cmd),
                     sender.user, cmd, env.clock(w.clockReads))
  {
    hide RecordCreated;
    hide InsertRows;
    hide EventOf;
    hide Ledger.Accepted;
    hide Ledger.AcceptedMessage;
    hide Ledger.Exact;
    AcceptedExtends(w.ledger, sender.user, cmd, env.clock(w.clockReads));
    LedgerStep(w.ledger, sender.user, cmd, env.clock(w.clockReads));
  }

  lemma EnrolAdds(w: World, m: Message, expiresAt: int)
    requires Deliveries(w) && Extends(w.ledger.messages, m)
    ensures RowsAdded(w.rows, InsertRows(w.rows, m, RecipientsFor(m.command), expiresAt), m.command, m.id,
                      m.conversation, expiresAt)
  {
    RowsBefore(w, m);
    hide Deliveries;
    hide InsertRows;
    hide FiledFor;
    EnrolRows(w.rows, m, RecipientsFor(m.command), expiresAt);
    var added := InsertRows([], m, RecipientsFor(m.command), expiresAt);
    hide FreshRows;
    FreshAreFiled(added, m, expiresAt);
    assert InsertRows(w.rows, m, RecipientsFor(m.command), expiresAt)[|w.rows|..] == added;
  }

  lemma EnrolFiles(env: Env, w: World, sender: Session, cmd: Command)
    requires Inv(w) && Ledger.AcceptKey(sender.user, cmd.clientId) !in w.ledger.accepted
    ensures var w1, o := Enrol(env, w, sender.user, cmd), AcceptOutcomeOf(env, w, sender, cmd);
      && StoredAs(w.ledger, w1.ledger, o, sender.user, cmd, env.clock(w.clockReads))
      && RowsAdded(w.rows, w1.rows, cmd, o.id, o.conversation,
                   env.clock(w.clockReads + 1) + env.cfg.messageRetentionMs)
  {
    hide RecordCreated;
    hide InsertRows;
    hide Deliveries;
    hide RowsAdded;
    hide StoredAs;
    hide Ledger.Accepted;
    hide Ledger.AcceptedMessage;
    hide Ledger.Exact;
    EnrolStores(env, w, sender, cmd);
    AcceptedExtends(w.ledger, sender.user, cmd, env.clock(w.clockReads));
    var m := Ledger.AcceptedMessage(w.ledger, sender.user, cmd, env.clock(w.clockReads));
    EnrolAdds(w, m, env.clock(w.clockReads + 1) + env.cfg.messageRetentionMs);
  }

  /**
    A first accept enrols: the message is stored as it came under the next id and
    the next number of its conversation with one outbox event, each user it is for
    gets one pending row that expires the retention after the second clock reading,
    and from there on only delivery changes those rows.
  */
  lemma FirstAcceptEnrols(env: Env, w: World, sender: Session, cmd: Command)
    requires Reachable(env, w) && Ledger.AcceptKey(sender.user, cmd.clientId) !in w.ledger.accepted
    ensures var w', o := Accept(env, w, sender, cmd), AcceptOutcomeOf(env, w, sender, cmd);
      var expiresAt := env.clock(w.clockReads + 1) + env.cfg.messageRetentionMs;
      && StoredAs(w.ledger, w'.ledger, o, sender.user, cmd, env.clock(w.clockReads))
      && exists rows :: RowsAdded(w.rows, rows, cmd, o.id, o.conversation, expiresAt) && RowsKept(rows, w'.rows)
  {
    hide Deliveries;
    hide Ledger.Exact;
    hide Enrol;
    hide StoredAs;
    hide RowsAdded;
    hide RowsKept;
    hide OnAccepted;
    hide AcceptOutcomeOf;
    ReachableInv(env, w);
    hide Reachable;
    EnrolFiles(env, w, sender, cmd);
    EnrolInv(env, w, sender.user, cmd);
    OnAcceptedInv(env, Enrol(env, w, sender.user, cmd), RecipientsFor(cmd));
    TakenFirst(env, w, sender, cmd);
    assert RowsKept(Enrol(env, w, sender.user, cmd).rows, Accept(env, w, sender, cmd).rows);
  }

  lemma TakenFirst(env: Env, w: World, sender: Session, cmd: Command)
    requires Ledger.AcceptKey(sender.user, cmd.clientId) !in w.ledger.accepted
    ensures AcceptOutcomeOf(env, w, sender, cmd).Taken?
  {}

  lemma RowsBefore(w: World, m: Message)
    requires Deliveries(w) && Extends(w.ledger.messages, m)
    ensures forall i :: 0 <= i < |w.rows| ==> w.rows[i].messageId < m.id
  {}

  lemma LedgerStep(l: Ledger.Ledger, sender: nat, cmd: Command, at: int)
    requires Ledger.Exact(l) && Ledger.AcceptKey(sender, cmd.clientId) !in l.accepted
    ensures var l', m := Ledger.Accepted(l, sender, cmd, at), Ledger.AcceptedMessage(l, sender, cmd, at);
      && m == Message(|l.outbox| + 1, m.conversation, m.sequence, sender, cmd, at) && m.id !in l.messages
      && |l'.outbox| == |l.outbox| + 1 && l'.outbox[..|l.outbox|] == l.outbox
      && EventOf(l'.outbox[|l.outbox|], cmd, m.id, at)
  {}

  lemma FreshAreFiled(added: seq<Delivery>, m: Message, expiresAt: int)
    requires FreshRows(added, m, (set u | u in RecipientsFor(m.command)), expiresAt)
    ensures FiledFor(added, m.command, m.id, m.conversation, expiresAt)
  {
    forall u | IsFor(m.command, u) ensures exists i :: 0 <= i < |added| && added[i].recipient == u {
      assert u in RecipientsFor(m.command);
      var i := IndexOf(added, Key(m.id, u));
      assert added[i].Id() == Key(m.id, u);
    }
    forall i, j | 0 <= i < j < |added| ensures added[i].recipient != added[j].recipient {
      assert KeyLess(added[i].Id(), added[j].Id());
    }
  }
}
