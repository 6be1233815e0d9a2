/**
  Accepting a message: its rows are appended to the table, one per distinct
  recipient, with a sequence number beyond everything attempted before.
*/
module ProtocolAccept {
  import opened Domain
  import opened Protocol
  import opened ProtocolSafety
  import opened ProtocolRuns
  import Ledger

  /** Exactly one new row for each of these recipients of message m, in order. */
  ghost predicate FreshRows(rows: seq<Delivery>, m: Message, us: set<nat>, expiresAt: int) {
    && Sorted(rows)
    && (forall i :: 0 <= i < |rows| ==> rows[i].recipient in us && rows[i] == NewRow(m, rows[i].recipient, expiresAt))
    && (forall u :: u in us ==> IndexOf(rows, Key(m.id, u)) >= 0)
  }

  lemma InsertRowMembers(rows: seq<Delivery>, d: Delivery)
    requires Sorted(rows)
    ensures var r := InsertRow(rows, d);
      && Sorted(r) && (forall x :: x in r ==> x == d || x in rows) && (forall x :: x in rows ==> x in r)
      && (exists x :: x in r && x.Id() == d.Id())
  {
    if rows == [] || KeyLess(d.Id(), rows[0].Id()) {
      assert d in InsertRow(rows, d);
    } else if d.Id() == rows[0].Id() {
      assert rows[0] in rows;
    } else {
      var tail := rows[1..];
      InsertRowMembers(tail, d);
      var t := InsertRow(tail, d);
      assert InsertRow(rows, d) == [rows[0]] + t;
      forall j | 0 <= j < |t| ensures KeyLess(rows[0].Id(), t[j].Id()) {
        assert t[j] in t;
        if t[j] != d {
          var q :| 0 <= q < |tail| && tail[q] == t[j];
          assert rows[q + 1] == tail[q];
        }
      }
      var x :| x in t && x.Id() == d.Id();
      assert x in InsertRow(rows, d);
      forall y | y in rows ensures y in InsertRow(rows, d) {
        if y != rows[0] {
          assert y in tail;
        }
      }
    }
  }

  lemma InsertRowFresh(rows: seq<Delivery>, m: Message, us: set<nat>, u: nat, expiresAt: int)
    requires FreshRows(rows, m, us, expiresAt)
    ensures FreshRows(InsertRow(rows, NewRow(m, u, expiresAt)), m, us + {u}, expiresAt)
  {
    var d, r := NewRow(m, u, expiresAt), InsertRow(rows, NewRow(m, u, expiresAt));
    InsertRowMembers(rows, d);
    forall i | 0 <= i < |r| ensures r[i].recipient in us + {u} && r[i] == NewRow(m, r[i].recipient, expiresAt) {
      assert r[i] in r;
    }
    forall v | v in us + {u} ensures IndexOf(r, Key(m.id, v)) >= 0 {
      if v == u {
        var x :| x in r && x.Id() == d.Id();
      } else {
        var i := IndexOf(rows, Key(m.id, v));
        assert rows[i] in rows && rows[i] in r;
      }
    }
  }

  lemma {:induction false} InsertRowsFresh(rows: seq<Delivery>, m: Message, us: set<nat>, recipients: seq<nat>,
                                           expiresAt: int)
    requires FreshRows(rows, m, us, expiresAt)
    ensures FreshRows(InsertRows(rows, m, recipients, expiresAt), m, us + (set u | u in recipients), expiresAt)
    decreases |recipients|
  {
    hide FreshRows;
    hide InsertRow;
    if recipients == [] {
      assert us + (set u | u in recipients) == us;
    } else {
      var u := recipients[0];
      InsertRowFresh(rows, m, us, u, expiresAt);
      InsertRowsFresh(InsertRow(rows, NewRow(m, u, expiresAt)), m, us + {u}, recipients[1..], expiresAt);
      assert us + {u} + (set v | v in recipients[1..]) == us + (set v | v in recipients);
    }
  }

  lemma {:induction false} InsertRowAfter(rows: seq<Delivery>, added: seq<Delivery>, d: Delivery)
    requires forall i :: 0 <= i < |rows| ==> rows[i].messageId < d.messageId
    ensures InsertRow(rows + added, d) == rows + InsertRow(added, d)
  {
    if rows == [] {
      assert rows + added == added;
    } else {
      assert (rows + added)[1..] == rows[1..] + added;
      InsertRowAfter(rows[1..], added, d);
    }
  }

  /** The new rows come after all old ones: nothing in the table moves. */
  lemma {:induction false} InsertRowsAfter(rows: seq<Delivery>, added: seq<Delivery>, m: Message, recipients: seq<nat>,
                                           expiresAt: int)
    requires forall i :: 0 <= i < |rows| ==> rows[i].messageId < m.id
    ensures InsertRows(rows + added, m, recipients, expiresAt) == rows + InsertRows(added, m, recipients, expiresAt)
    decreases |recipients|
  {
    if recipients != [] {
      var d := NewRow(m, recipients[0], expiresAt);
      InsertRowAfter(rows, added, d);
      InsertRowsAfter(rows, InsertRow(added, d), m, recipients[1..], expiresAt);
    }
  }

  /** The table after a first accept. */
  lemma EnrolRows(rows: seq<Delivery>, m: Message, recipients: seq<nat>, expiresAt: int)
    requires forall i :: 0 <= i < |rows| ==> rows[i].messageId < m.id
    ensures var added := InsertRows([], m, recipients, expiresAt);
      && InsertRows(rows, m, recipients, expiresAt) == rows + added
      && FreshRows(added, m, (set u | u in recipients), expiresAt)
  {
    assert rows + [] == rows;
    InsertRowsAfter(rows, [], m, recipients, expiresAt);
    InsertRowsFresh([], m, {}, recipients, expiresAt);
    assert {} + (set u | u in recipients) == set u | u in recipients;
  }

  // ---- The invariant after a first accept ----

  /** The messages of the ledger with one more, of a later id and a later sequence number. */
  ghost predicate Extends(ms: map<nat, Message>, m: Message) {
    && (forall id :: id in ms ==> id < m.id)
    && (forall id :: id in ms && ms[id].conversation == m.conversation ==> ms[id].sequence < m.sequence)
  }

  ghost predicate NewFor(added: seq<Delivery>, m: Message) {
    forall i :: 0 <= i < |added| ==>
      && added[i].messageId == m.id && added[i].conversation == m.conversation && added[i].state == Pending
      && added[i].attempts == 0 && added[i].recipient in RecipientsFor(m.command)
  }

  lemma AppendedTable(rows: seq<Delivery>, added: seq<Delivery>, ms: map<nat, Message>, m: Message)
    requires Sorted(rows) && Filed(rows, ms) && Sorted(added) && NewFor(added, m) && Extends(ms, m)
    ensures Sorted(rows + added) && Filed(rows + added, ms[m.id := m])
  {}

  lemma AppendedLanes(rows: seq<Delivery>, added: seq<Delivery>, ms: map<nat, Message>, m: Message, c: Coordinator)
    requires Filed(rows, ms) && NewFor(added, m) && Extends(ms, m)
    requires Leased(rows, ms) && HeadOfLine(rows, ms) && Fenced(rows, c)
    ensures var ms' := ms[m.id := m];
      Leased(rows + added, ms') && HeadOfLine(rows + added, ms') && Fenced(rows + added, c)
  {
    var all := rows + added;
    assert forall i :: 0 <= i < |all| ==> all[i] == if i < |rows| then rows[i] else added[i - |rows|];
  }

  lemma AppendedLog(rows: seq<Delivery>, added: seq<Delivery>, ms: map<nat, Message>, m: Message, log: seq<Attempt>)
    requires Filed(rows, ms) && NewFor(added, m) && Extends(ms, m) && LogFiled(log, ms) && LogBehind(log, rows, ms)
    ensures var ms' := ms[m.id := m]; LogFiled(log, ms') && LogBehind(log, rows + added, ms')
  {
    var all := rows + added;
    assert forall i :: 0 <= i < |all| ==> all[i] == if i < |rows| then rows[i] else added[i - |rows|];
  }

  lemma AppendedTally(rows: seq<Delivery>, added: seq<Delivery>, ms: map<nat, Message>, m: Message, log: seq<Attempt>,
                      acks: set<Key>)
    requires Filed(rows, ms) && NewFor(added, m) && Extends(ms, m) && LogFiled(log, ms)
    requires Counted(rows, log) && LegacyOnce(rows, log, ms) && Attributed(rows, acks, ms)
    ensures var ms' := ms[m.id := m];
      Counted(rows + added, log) && LegacyOnce(rows + added, log, ms') && Attributed(rows + added, acks, ms')
  {
    var all := rows + added;
    assert forall i :: 0 <= i < |all| ==> all[i] == if i < |rows| then rows[i] else added[i - |rows|];
    forall k: Key | k.message == m.id ensures Admissions(log, k) == 0 {
      NoAdmissions(log, k);
    }
  }

  lemma AppendedOwed(rows: seq<Delivery>, added: seq<Delivery>, ms: map<nat, Message>, m: Message,
                     cleaned: seq<Removal>)
    requires NewFor(added, m) && Extends(ms, m) && Owed(rows, cleaned, ms)
    requires forall u :: u in RecipientsFor(m.command) ==> IndexOf(added, Key(m.id, u)) >= 0
    ensures Owed(rows + added, cleaned, ms[m.id := m])
  {
    var all := rows + added;
    assert forall i :: 0 <= i < |all| ==> all[i] == if i < |rows| then rows[i] else added[i - |rows|];
    forall k ensures IndexOf(all, k) >= 0 <==> IndexOf(rows, k) >= 0 || IndexOf(added, k) >= 0 {
      if IndexOf(rows, k) >= 0 {
        assert all[IndexOf(rows, k)].Id() == k;
      }
      if IndexOf(added, k) >= 0 {
        assert all[|rows| + IndexOf(added, k)].Id() == k;
      }
    }
  }

  lemma AcceptedExtends(l: Ledger.Ledger, sender: nat, cmd: Command, acceptedAt: int)
    requires Ledger.Exact(l) && Ledger.AcceptKey(sender, cmd.clientId) !in l.accepted
    ensures var l' := Ledger.Accepted(l, sender, cmd, acceptedAt);
      var m := Ledger.AcceptedMessage(l, sender, cmd, acceptedAt);
      Ledger.Exact(l') && Extends(l.messages, m) && l'.messages == l.messages[m.id := m] && m.command == cmd
  {
    Ledger.AcceptedExact(l, sender, cmd, acceptedAt);
  }

  lemma EnrolInv(env: Env, w: World, sender: nat, cmd: Command)
    requires Inv(w) && Ledger.AcceptKey(sender, cmd.clientId) !in w.ledger.accepted
    ensures Inv(Enrol(env, w, sender, cmd)) && Evolves(w, Enrol(env, w, sender, cmd))
  {
    hide Deliveries;
    hide Ledger.Exact;
    hide Ledger.Accepted;
    hide Ledger.AcceptedMessage;
    hide Extends;
    hide Evolves;
    var acceptedAt := env.clock(w.clockReads);
    AcceptedExtends(w.ledger, sender, cmd, acceptedAt);
    var m := Ledger.AcceptedMessage(w.ledger, sender, cmd, acceptedAt);
    EnrolDeliveries(w, Enrol(env, w, sender, cmd), m, env.clock(w.clockReads + 1) + env.cfg.messageRetentionMs);
  }

  lemma EnrolDeliveries(w: World, w': World, m: Message, expiresAt: int)
    requires Deliveries(w) && Extends(w.ledger.messages, m) && w'.ledger.messages == w.ledger.messages[m.id := m]
    requires w'.rows == InsertRows(w.rows, m, RecipientsFor(m.command), expiresAt)
    requires w'.coord == w.coord && w'.log == w.log && w'.cleaned == w.cleaned && w'.acks == w.acks
    ensures Deliveries(w') && Evolves(w, w')
  {
    var ms, rows := w.ledger.messages, w.rows;
    EnrolRows(rows, m, RecipientsFor(m.command), expiresAt);
    var added := InsertRows([], m, RecipientsFor(m.command), expiresAt);
    assert NewFor(added, m);
    AppendedTable(rows, added, ms, m);
    AppendedLanes(rows, added, ms, m, w.coord);
    AppendedLog(rows, added, ms, m, w.log);
    AppendedTally(rows, added, ms, m, w.log, w.acks);
    AppendedOwed(rows, added, ms, m, w.cleaned);
    forall i | 0 <= i < |rows| ensures RowFate(rows[i], w') {
      assert w'.rows[i] == rows[i];
      SortedIndex(w'.rows, i);
    }
  }

  lemma AcceptInv(env: Env, w: World, sender: Session, cmd: Command)
    requires env.cfg.leaseMs > 0 && Inv(w)
    ensures Inv(Accept(env, w, sender, cmd)) && Evolves(w, Accept(env, w, sender, cmd))
    ensures Accept(env, w, sender, cmd).acks == w.acks
  {
    hide Deliveries;
    hide Ledger.Exact;
    hide Evolves;
    KeptEvolvesSelf(w);
    var k := Ledger.AcceptKey(sender.user, cmd.clientId);
    if k in w.ledger.accepted {
      var m := w.ledger.accepted[k];
      OnAcceptedInv(env, w, RecipientsFor(m.command));
      ClaimsEvolve(w, OnAccepted(env, w, RecipientsFor(m.command)));
    } else {
      var w1 := Enrol(env, w, sender.user, cmd);
      EnrolInv(env, w, sender.user, cmd);
      OnAcceptedInv(env, w1, RecipientsFor(cmd));
      var w2 := OnAccepted(env, w1, RecipientsFor(cmd));
      ClaimsEvolve(w1, w2);
      InvOwed(w2);
      EvolvesTrans(w, w1, w2);
    }
  }
}
