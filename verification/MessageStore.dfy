/**
  The in-memory message store as the program writes it: maps and counters
  changed in place.  Each method is tied to the value-level function of the
  same name in modules Ledger and Protocol.
*/
module MessageStore {
  import opened Domain
  import opened Protocol
  import opened ProtocolSafety
  import Ledger
  import OutboxRelay

  /** Positions of the user's rows among the first n. */
  function PositionsOf(rows: seq<Delivery>, user: nat, n: nat): (at: seq<nat>)
    requires n <= |rows|
    ensures forall k :: 0 <= k < |at| ==> at[k] < n
  {
    if n == 0 then []
    else if rows[n - 1].recipient == user then PositionsOf(rows, user, n - 1) + [n - 1]
    else PositionsOf(rows, user, n - 1)
  }

  /** They are exactly the user's rows, in table order. */
  lemma {:induction false} PositionsExact(rows: seq<Delivery>, user: nat, n: nat)
    requires n <= |rows|
    ensures var at := PositionsOf(rows, user, n);
      && (forall k :: 0 <= k < |at| ==> rows[at[k]].recipient == user)
      && (forall k, m :: 0 <= k < m < |at| ==> at[k] < at[m])
      && (forall i :: 0 <= i < n && rows[i].recipient == user ==> i in at)
  {
    if n > 0 {
      PositionsExact(rows, user, n - 1);
    }
  }

  function FilledAt(messages: map<nat, Message>, rows: seq<Delivery>, at: seq<nat>): seq<Delivery>
    requires forall k :: 0 <= k < |at| ==> at[k] < |rows|
  {
    seq(|at|, k requires 0 <= k < |at| => Filled(messages, rows[at[k]]))
  }

  /** Positions of the message's rows among the first n. */
  function RowsOf(rows: seq<Delivery>, id: nat, n: nat): (at: seq<nat>)
    requires n <= |rows|
    ensures forall k :: 0 <= k < |at| ==> at[k] < n
  {
    if n == 0 then []
    else if rows[n - 1].messageId == id then RowsOf(rows, id, n - 1) + [n - 1]
    else RowsOf(rows, id, n - 1)
  }

  /** They are exactly the message's rows, in table order. */
  lemma {:induction false} RowsExact(rows: seq<Delivery>, id: nat, n: nat)
    requires n <= |rows|
    ensures var at := RowsOf(rows, id, n);
      && (forall k :: 0 <= k < |at| ==> rows[at[k]].messageId == id)
      && (forall k, m :: 0 <= k < m < |at| ==> at[k] < at[m])
      && (forall i :: 0 <= i < n && rows[i].messageId == id ==> i in at)
  {
    if n > 0 {
      RowsExact(rows, id, n - 1);
    }
  }

  /** The table with the row of the same key replaced, if there is one. */
  function Updated(rows: seq<Delivery>, d: Delivery): seq<Delivery> {
    var i := IndexOf(rows, d.Id());
    if i < 0 then rows else rows[i := d]
  }

  lemma {:induction false} InsertRowAt(rows: seq<Delivery>, p: nat, d: Delivery)
    requires p <= |rows| && (forall i :: 0 <= i < p ==> KeyLess(rows[i].Id(), d.Id()))
    requires p < |rows| ==> !KeyLess(rows[p].Id(), d.Id())
    ensures InsertRow(rows, d) == if p < |rows| && rows[p].Id() == d.Id() then rows else rows[..p] + [d] + rows[p..]
  {
    if p == 0 {
      assert rows[..0] + [d] + rows[0..] == [d] + rows;
    } else {
      var tail := rows[1..];
      InsertRowAt(tail, p - 1, d);
      assert InsertRow(rows, d) == [rows[0]] + InsertRow(tail, d);
      if p < |rows| && rows[p].Id() == d.Id() {
        assert [rows[0]] + tail == rows;
      } else {
        assert [rows[0]] + (tail[..p - 1] + [d] + tail[p - 1..]) == rows[..p] + [d] + rows[p..];
      }
    }
  }

  /** Position of the event with this id, or the length when there is none. */
  function EventIndex(es: seq<OutboxEvent>, id: nat): (i: nat)
    ensures i <= |es| && (i < |es| ==> es[i].id == id) && forall j :: 0 <= j < i ==> es[j].id != id
  {
    if es == [] || es[0].id == id then 0
    else
      assert forall j :: 1 <= j < |es| ==> es[j] == es[1..][j - 1];
      1 + EventIndex(es[1..], id)
  }

  /** What the ledger says of an event does not involve its lease. */
  predicate SameEvent(e: OutboxEvent, f: OutboxEvent) {
    e.id == f.id && e.aggregate == f.aggregate && e.payload == f.payload && e.availableAt == f.availableAt
  }

  lemma SameEvents(es: seq<OutboxEvent>, fs: seq<OutboxEvent>, m: map<nat, Message>, next: nat, nextEvent: nat)
    requires Ledger.EventsMatch(es, m, next, nextEvent) && |fs| == |es|
    requires forall j :: 0 <= j < |es| ==> SameEvent(es[j], fs[j])
    ensures Ledger.EventsMatch(fs, m, next, nextEvent)
  {}

  /** Claiming and marking leave the ledger's account of the events exact. */
  lemma RelayKeepsEvents(es: seq<OutboxEvent>, m: map<nat, Message>, next: nat, nextEvent: nat,
                         now: int, owner: string, until: int, limit: nat, i: nat)
    requires Ledger.EventsMatch(es, m, next, nextEvent)
    ensures Ledger.EventsMatch(OutboxRelay.ClaimFrom(es, 0, now, owner, until, limit).0, m, next, nextEvent)
    ensures Ledger.EventsMatch(OutboxRelay.Processed(es, i, now), m, next, nextEvent)
  {
    hide OutboxRelay.ClaimFrom;
    hide Ledger.EventsMatch;
    var fs := OutboxRelay.ClaimFrom(es, 0, now, owner, until, limit).0;
    forall j | 0 <= j < |es| ensures SameEvent(es[j], fs[j]) {
      OutboxRelay.ClaimExactly(es, 0, now, owner, until, limit, j);
    }
    SameEvents(es, fs, m, next, nextEvent);
    SameEvents(es, OutboxRelay.Processed(es, i, now), m, next, nextEvent);
  }

  class InMemoryMessageStore {
    var accepted: map<Ledger.AcceptKey, Message>
    var messages: map<nat, Message>
    var direct: map<Ledger.Pair, nat>
    var groups: map<nat, nat>
    var lastSequence: map<nat, nat>
    var rows: seq<Delivery>
    var outbox: seq<OutboxEvent>
    var nextConversation: nat
    var nextMessage: nat
    var nextEvent: nat
    ghost var cleaned: seq<Removal>

    ghost function View(): Ledger.Ledger
      reads this
    {
      Ledger.Ledger(accepted, messages, direct, groups, lastSequence, outbox, nextConversation, nextMessage, nextEvent)
    }

    /** The delivery table is an ordered map: strictly ascending keys. */
    ghost predicate Valid()
      reads this
    {
      Sorted(rows)
    }

    constructor ()
      ensures Valid() && View() == Ledger.EMPTY && rows == [] && cleaned == []
    {
      accepted, messages, direct, groups, lastSequence := map[], map[], map[], map[], map[];
      rows, outbox, cleaned := [], [], [];
      nextConversation, nextMessage, nextEvent := 1, 1, 1;
    }

    method FindAccepted(clientId: string, sender: nat) returns (m: Option<Message>)
      ensures var k := Ledger.AcceptKey(sender, clientId);
        m == if k in accepted then Some(accepted[k]) else None
    {
      var k := Ledger.AcceptKey(sender, clientId);
      if k in accepted {
        return Some(accepted[k]);
      }
      m := None;
    }

    method FindMessage(id: nat) returns (m: Option<Message>)
      ensures m == if id in messages then Some(messages[id]) else None
    {
      if id in messages {
        return Some(messages[id]);
      }
      m := None;
    }

    method GetOrCreateConversation(sender: nat, cmd: Command) returns (id: nat)
      modifies this
      ensures View() == Ledger.Joined(old(View()), sender, cmd)
      ensures Ledger.ConversationOf(View(), sender, cmd) == Some(id)
      ensures rows == old(rows) && cleaned == old(cleaned)
    {
      if cmd.kind == Direct {
        var low := if sender <= cmd.directRecipient then sender else cmd.directRecipient;
        var high := if sender <= cmd.directRecipient then cmd.directRecipient else sender;
        var key := Ledger.Pair(low, high);
        if key in direct {
          return direct[key];
        }
        id := nextConversation;
        nextConversation := nextConversation + 1;
        direct := direct[key := id];
        return;
      }
      if cmd.groupId in groups {
        return groups[cmd.groupId];
      }
      id := nextConversation;
      nextConversation := nextConversation + 1;
      groups := groups[cmd.groupId := id];
    }

    /** Gives the draft its id and the next sequence number of its conversation. */
    method Number(draft: Message) returns (m: Message)
      modifies `nextMessage, `lastSequence
      ensures m == Ledger.Numbered(old(View()), draft)
      ensures nextMessage == old(nextMessage) + 1 && lastSequence == old(lastSequence)[m.conversation := m.sequence]
    {
      m := draft.(id := nextMessage);
      nextMessage := nextMessage + 1;
      var next := (if m.conversation in lastSequence then lastSequence[m.conversation] else 0) + 1;
      lastSequence := lastSequence[m.conversation := next];
      m := m.(sequence := next);
    }

    method InsertMessage(draft: Message) returns (m: Message)
      modifies this
      ensures View() == Ledger.Inserted(old(View()), draft) && m == Ledger.Numbered(old(View()), draft)
      ensures rows == old(rows) && cleaned == old(cleaned)
    {
      hide Ledger.Numbered;
      m := Number(draft);
      messages := messages[m.id := m];
      var key := Ledger.AcceptKey(m.sender, m.command.clientId);
      if key !in accepted {
        accepted := accepted[key := m];
      }
      var event := OutboxEvent(nextEvent, m.id, PayloadOf(m.command), m.acceptedAt, "", 0, 0, 0);
      nextEvent := nextEvent + 1;
      outbox := outbox + [event];
    }

    method InsertDelivery(d: Delivery)
      requires Valid()
      modifies this
      ensures rows == InsertRow(old(rows), d) && View() == old(View()) && cleaned == old(cleaned)
    {
      var p := 0;
      while p < |rows| && KeyLess(rows[p].Id(), d.Id())
        invariant p <= |rows| && forall i :: 0 <= i < p ==> KeyLess(rows[i].Id(), d.Id())
      {
        p := p + 1;
      }
      InsertRowAt(rows, p, d);
      if p == |rows| || rows[p].Id() != d.Id() {
        rows := rows[..p] + [d] + rows[p..];
      }
    }

    method UpdateDelivery(d: Delivery)
      requires Valid()
      modifies this
      ensures rows == Updated(old(rows), d) && View() == old(View()) && cleaned == old(cleaned)
      ensures Valid()
    {
      for i := 0 to |rows|
        invariant forall j :: 0 <= j < i ==> rows[j].Id() != d.Id()
        invariant rows == old(rows) && View() == old(View()) && cleaned == old(cleaned)
      {
        if rows[i].Id() == d.Id() {
          SortedIndex(rows, i);
          rows := rows[i := d];
          return;
        }
      }
    }

    method DeliveriesByRecipient(user: nat) returns (found: seq<Delivery>, ghost at: seq<nat>)
      ensures at == PositionsOf(rows, user, |rows|) && found == FilledAt(messages, rows, at)
    {
      found, at := [], [];
      for i := 0 to |rows|
        invariant at == PositionsOf(rows, user, i) && |found| == |at|
        invariant forall k :: 0 <= k < |at| ==> found[k] == Filled(messages, rows[at[k]])
      {
        if rows[i].recipient == user {
          var d := rows[i];
          if d.messageId in messages {
            d := d.(sequence := messages[d.messageId].sequence);
          }
          found := found + [d];
          at := at + [i];
        }
      }
    }

    /** All rows of a message, as the acknowledgement looks for its own among them. */
    method DeliveriesByMessage(id: nat) returns (found: seq<Delivery>, ghost at: seq<nat>)
      ensures at == RowsOf(rows, id, |rows|) && found == FilledAt(messages, rows, at)
    {
      found, at := [], [];
      for i := 0 to |rows|
        invariant at == RowsOf(rows, id, i) && |found| == |at|
        invariant forall k :: 0 <= k < |at| ==> found[k] == Filled(messages, rows[at[k]])
      {
        if rows[i].messageId == id {
          found := found + [Filled(messages, rows[i])];
          at := at + [i];
        }
      }
    }

    method DeliveriesDueForRetry(now: int, limit: nat) returns (due: seq<Delivery>, ghost at: seq<nat>)
      ensures at == DueFrom(rows, 0, now, limit) && |due| == |at|
      ensures forall k :: 0 <= k < |at| ==> at[k] < |rows| && due[k] == rows[at[k]]
    {
      due, at := [], [];
      var i := 0;
      assert [] + DueFrom(rows, 0, now, limit) == DueFrom(rows, 0, now, limit);
      while i < |rows| && |due| < limit
        invariant i <= |rows| && |due| == |at| <= limit
        invariant forall k :: 0 <= k < |at| ==> at[k] < |rows| && due[k] == rows[at[k]]
        invariant DueFrom(rows, 0, now, limit) == at + DueFrom(rows, i, now, limit - |at|)
      {
        if RetryDue(rows[i], now) {
          ghost var rest := DueFrom(rows, i + 1, now, limit - |at| - 1);
          assert at + ([i] + rest) == (at + [i]) + rest;
          due := due + [rows[i]];
          at := at + [i];
        }
        i := i + 1;
      }
    }

    method ExpireDeliveriesDetailed(now: int, limit: nat) returns (list: seq<Expiry>)
      requires Valid()
      modifies this
      ensures (rows, list) == ExpireFrom(old(rows), 0, now, limit)
      ensures Valid() && View() == old(View()) && cleaned == old(cleaned)
    {
      list := [];
      var i := 0;
      while i < |rows| && |list| < limit
        invariant i <= |rows| && |list| <= limit && Sorted(rows)
        invariant View() == old(View()) && cleaned == old(cleaned)
        invariant ExpireFrom(old(rows), 0, now, limit).0 == ExpireFrom(rows, i, now, limit - |list|).0
        invariant ExpireFrom(old(rows), 0, now, limit).1 == list + ExpireFrom(rows, i, now, limit - |list|).1
      {
        if ExpiryDue(rows[i], now) {
          var x := Expiry(rows[i].Id(), rows[i].state);
          ghost var rest := ExpireFrom(rows[i := rows[i].(state := Expired)], i + 1, now, limit - |list| - 1).1;
          assert list + ([x] + rest) == (list + [x]) + rest;
          list := list + [x];
          rows := rows[i := rows[i].(state := Expired)];
        }
        i := i + 1;
      }
      assert list + [] == list;
    }

    method CleanupDeliveries(ackedBefore: int, expiredBefore: int, limit: nat) returns (removed: nat)
      requires Valid()
      modifies this
      ensures var (rows', gone) := CleanFrom(old(rows), 0, ackedBefore, expiredBefore, limit, limit);
        rows == rows' && cleaned == old(cleaned) + gone && removed == |gone|
      ensures Valid() && View() == old(View())
    {
      var removedAcked, removedExpired := 0, 0;
      ghost var gone: seq<Removal> := [];
      var i := 0;
      while i < |rows|
        invariant i <= |rows| && removedAcked <= limit && removedExpired <= limit && Sorted(rows)
        invariant View() == old(View()) && cleaned == old(cleaned) && removedAcked + removedExpired == |gone|
        invariant var (rows', all) := CleanFrom(old(rows), 0, ackedBefore, expiredBefore, limit, limit);
          var (rows'', rest) :=
            CleanFrom(rows, i, ackedBefore, expiredBefore, limit - removedAcked, limit - removedExpired);
          rows' == rows'' && all == gone + rest
        decreases |rows| - i
      {
        ghost var r := Removal(rows[i], ackedBefore, expiredBefore);
        ghost var less := rows[..i] + rows[i + 1..];
        if AckedPast(rows[i], ackedBefore) && removedAcked < limit {
          ghost var rest :=
            CleanFrom(less, i, ackedBefore, expiredBefore, limit - removedAcked - 1, limit - removedExpired).1;
          assert gone + ([r] + rest) == (gone + [r]) + rest;
          gone := gone + [r];
          LessSorted(rows, i);
          rows := rows[..i] + rows[i + 1..];
          removedAcked := removedAcked + 1;
        } else if ExpiredPast(rows[i], expiredBefore) && removedExpired < limit {
          ghost var rest :=
            CleanFrom(less, i, ackedBefore, expiredBefore, limit - removedAcked, limit - removedExpired - 1).1;
          assert gone + ([r] + rest) == (gone + [r]) + rest;
          gone := gone + [r];
          LessSorted(rows, i);
          rows := rows[..i] + rows[i + 1..];
          removedExpired := removedExpired + 1;
        } else {
          i := i + 1;
        }
      }
      cleaned := cleaned + gone;
      removed := removedAcked + removedExpired;
    }

    method ClaimOutboxEvents(now: int, owner: string, until: int, limit: nat)
      returns (claimed: seq<OutboxEvent>, ghost at: seq<nat>)
      modifies `outbox
      ensures (outbox, at) == OutboxRelay.ClaimFrom(old(outbox), 0, now, owner, until, limit)
      ensures |claimed| == |at| && forall k :: 0 <= k < |at| ==> claimed[k] == outbox[at[k]]
    {
      claimed, at := [], [];
      var i := 0;
      ghost var all := OutboxRelay.ClaimFrom(outbox, 0, now, owner, until, limit);
      assert [] + all.1 == all.1;
      while i < |outbox| && |claimed| < limit
        invariant i <= |outbox| && |claimed| == |at| <= limit
        invariant forall k :: 0 <= k < |at| ==> at[k] < i && claimed[k] == outbox[at[k]]
        invariant var r := OutboxRelay.ClaimFrom(outbox, i, now, owner, until, limit - |at|); all == (r.0, at + r.1)
      {
        if OutboxRelay.Claimable(outbox[i], now) {
          var e := OutboxRelay.Leased(outbox[i], owner, until);
          ghost var rest := OutboxRelay.ClaimFrom(outbox[i := e], i + 1, now, owner, until, limit - |at| - 1).1;
          assert at + ([i] + rest) == (at + [i]) + rest;
          outbox := outbox[i := e];
          claimed, at := claimed + [e], at + [i];
        }
        i := i + 1;
      }
      assert at + [] == at;
    }

    method MarkOutboxProcessed(id: nat, now: int)
      modifies `outbox
      ensures outbox == OutboxRelay.Processed(old(outbox), EventIndex(old(outbox), id), now)
    {
      var i := 0;
      while i < |outbox| && outbox[i].id != id
        invariant i <= |outbox| && forall j :: 0 <= j < i ==> outbox[j].id != id
      {
        i := i + 1;
      }
      if i < |outbox| {
        outbox := outbox[i := outbox[i].(processedAt := now, leaseOwner := "", leaseUntil := 0)];
      }
    }
  }

  lemma LessSorted(rows: seq<Delivery>, i: nat)
    requires Sorted(rows) && i < |rows|
    ensures Sorted(rows[..i] + rows[i + 1..])
  {
    var less := rows[..i] + rows[i + 1..];
    assert forall j :: 0 <= j < |less| ==> less[j] == rows[if j < i then j else j + 1];
  }
}
