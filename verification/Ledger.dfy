/**
  The accept side of the message store: idempotency keys, conversations,
  per-conversation sequence numbers, messages and their outbox events.
*/
module Ledger {
  import opened Domain

  datatype AcceptKey = AcceptKey(sender: nat, clientId: string)

  /** The unordered pair of users of a direct conversation. */
  datatype Pair = Pair(low: nat, high: nat)

  datatype Ledger = Ledger(
    accepted: map<AcceptKey, Message>, messages: map<nat, Message>,
    direct: map<Pair, nat>, groups: map<nat, nat>, lastSequence: map<nat, nat>,
    outbox: seq<OutboxEvent>, nextConversation: nat, nextMessage: nat, nextEvent: nat)

  const EMPTY := Ledger(map[], map[], map[], map[], map[], [], 1, 1, 1)

  function KeyOf(m: Message): AcceptKey {
    AcceptKey(m.sender, m.command.clientId)
  }

  function PairOf(a: nat, b: nat): Pair {
    if a <= b then Pair(a, b) else Pair(b, a)
  }

  /** The conversation a command belongs to, if it exists already. */
  function ConversationOf(l: Ledger, sender: nat, cmd: Command): Option<nat> {
    if cmd.kind == Direct then
      var p := PairOf(sender, cmd.directRecipient);
      if p in l.direct then Some(l.direct[p]) else None
    else if cmd.groupId in l.groups then Some(l.groups[cmd.groupId]) else None
  }

  /** The ledger after looking the conversation up, creating it when missing. */
  function Joined(l: Ledger, sender: nat, cmd: Command): Ledger {
    if ConversationOf(l, sender, cmd).Some? then l
    else if cmd.kind == Direct then
      l.(direct := l.direct[PairOf(sender, cmd.directRecipient) := l.nextConversation],
         nextConversation := l.nextConversation + 1)
    else
      l.(groups := l.groups[cmd.groupId := l.nextConversation],
         nextConversation := l.nextConversation + 1)
  }

  /** The message as stored: the draft with its id and sequence number. */
  function Numbered(l: Ledger, draft: Message): Message {
    draft.(id := l.nextMessage,
           sequence := (if draft.conversation in l.lastSequence then l.lastSequence[draft.conversation] else 0) + 1)
  }

  function EventFor(l: Ledger, m: Message): OutboxEvent {
    OutboxEvent(l.nextEvent, m.id, PayloadOf(m.command), m.acceptedAt, "", 0, 0, 0)
  }

  function Inserted(l: Ledger, draft: Message): Ledger {
    var m := Numbered(l, draft);
    l.(accepted := if KeyOf(m) in l.accepted then l.accepted else l.accepted[KeyOf(m) := m],
       messages := l.messages[m.id := m],
       lastSequence := l.lastSequence[m.conversation := m.sequence],
       outbox := l.outbox + [EventFor(l, m)],
       nextMessage := l.nextMessage + 1, nextEvent := l.nextEvent + 1)
  }

  function Draft(l: Ledger, sender: nat, cmd: Command, acceptedAt: int): Message {
    var c := ConversationOf(Joined(l, sender, cmd), sender, cmd);
    Message(0, if c.Some? then c.value else 0, 0, sender, cmd, acceptedAt)
  }

  /** Accepting a command under a fresh key: the new ledger and the stored message. */
  function Accepted(l: Ledger, sender: nat, cmd: Command, acceptedAt: int): Ledger {
    Inserted(Joined(l, sender, cmd), Draft(l, sender, cmd, acceptedAt))
  }

  function AcceptedMessage(l: Ledger, sender: nat, cmd: Command, acceptedAt: int): Message {
    Numbered(Joined(l, sender, cmd), Draft(l, sender, cmd, acceptedAt))
  }

  // ---- The exact ledger ----

  /** Keys and messages correspond one to one, and message ids are 1, 2, 3, ... */
  ghost predicate KeysMatch(accepted: map<AcceptKey, Message>, messages: map<nat, Message>, next: nat) {
    && 1 <= next
    && (forall id :: id in messages <==> 1 <= id < next)
    && (forall id :: id in messages ==> messages[id].id == id)
    && (forall k :: k in accepted ==>
          k == KeyOf(accepted[k]) && accepted[k].id in messages && messages[accepted[k].id] == accepted[k])
    && (forall id :: id in messages ==> KeyOf(messages[id]) in accepted && accepted[KeyOf(messages[id])].id == id)
  }

  /** The outbox holds exactly one event per message, in message order. */
  ghost predicate EventsMatch(outbox: seq<OutboxEvent>, messages: map<nat, Message>, next: nat, nextEvent: nat) {
    && |outbox| + 1 == next == nextEvent
    && (forall i :: 0 <= i < |outbox| ==>
          && outbox[i].id == i + 1 == outbox[i].aggregate
          && i + 1 in messages
          && outbox[i].payload == PayloadOf(messages[i + 1].command)
          && outbox[i].availableAt == messages[i + 1].acceptedAt)
  }

  /** Distinct pairs and distinct groups have distinct conversations. */
  ghost predicate Separate(direct: map<Pair, nat>, groups: map<nat, nat>, next: nat) {
    && (forall p :: p in direct ==> direct[p] < next)
    && (forall g :: g in groups ==> groups[g] < next)
    && (forall p, q :: p in direct && q in direct && direct[p] == direct[q] ==> p == q)
    && (forall g, h :: g in groups && h in groups && groups[g] == groups[h] ==> g == h)
    && (forall p, g :: p in direct && g in groups ==> direct[p] != groups[g])
  }

  /** Every message sits in the conversation of its command. */
  ghost predicate Filed(l: Ledger) {
    && (forall c :: c in l.lastSequence ==> c < l.nextConversation)
    && (forall id :: id in l.messages ==>
          ConversationOf(l, l.messages[id].sender, l.messages[id].command) == Some(l.messages[id].conversation))
  }

  ghost predicate ConversationsMatch(l: Ledger) {
    Separate(l.direct, l.groups, l.nextConversation) && Filed(l)
  }

  ghost predicate Holds(messages: map<nat, Message>, c: nat, s: nat) {
    exists id :: id in messages && messages[id].conversation == c && messages[id].sequence == s
  }

  ghost predicate Within(messages: map<nat, Message>, last: map<nat, nat>) {
    forall id :: id in messages ==>
      messages[id].conversation in last && 1 <= messages[id].sequence <= last[messages[id].conversation]
  }

  ghost predicate Ascending(messages: map<nat, Message>) {
    forall a, b :: a in messages && b in messages && a < b && messages[a].conversation == messages[b].conversation
      ==> messages[a].sequence < messages[b].sequence
  }

  ghost predicate Dense(messages: map<nat, Message>, last: map<nat, nat>) {
    forall c, s :: c in last && 1 <= s <= last[c] ==> Holds(messages, c, s)
  }

  /** Each conversation's sequence numbers are exactly 1..n, in message-id order. */
  ghost predicate SequencesMatch(messages: map<nat, Message>, last: map<nat, nat>) {
    Within(messages, last) && Ascending(messages) && Dense(messages, last)
  }

  ghost predicate Exact(l: Ledger) {
    && KeysMatch(l.accepted, l.messages, l.nextMessage)
    && EventsMatch(l.outbox, l.messages, l.nextMessage, l.nextEvent)
    && ConversationsMatch(l)
    && SequencesMatch(l.messages, l.lastSequence)
  }

  lemma PairAdded(direct: map<Pair, nat>, groups: map<nat, nat>, next: nat, p: Pair)
    requires Separate(direct, groups, next)
    ensures Separate(direct[p := next], groups, next + 1)
  {}

  lemma GroupAdded(direct: map<Pair, nat>, groups: map<nat, nat>, next: nat, g: nat)
    requires Separate(direct, groups, next)
    ensures Separate(direct, groups[g := next], next + 1)
  {}

  lemma SeparateBounds(direct: map<Pair, nat>, groups: map<nat, nat>, next: nat)
    requires Separate(direct, groups, next)
    ensures (forall p :: p in direct ==> direct[p] < next) && (forall g :: g in groups ==> groups[g] < next)
  {}

  lemma JoinedSeparate(l: Ledger, sender: nat, cmd: Command)
    requires Separate(l.direct, l.groups, l.nextConversation)
    ensures var j := Joined(l, sender, cmd); Separate(j.direct, j.groups, j.nextConversation)
    ensures var j := Joined(l, sender, cmd);
      ConversationOf(j, sender, cmd).Some? && ConversationOf(j, sender, cmd).value < j.nextConversation
  {
    hide Separate;
    PairAdded(l.direct, l.groups, l.nextConversation, PairOf(sender, cmd.directRecipient));
    GroupAdded(l.direct, l.groups, l.nextConversation, cmd.groupId);
    SeparateBounds(l.direct, l.groups, l.nextConversation);
  }

  /** A conversation once found stays the same. */
  lemma JoinedKeeps(l: Ledger, sender: nat, cmd: Command, from: nat, other: Command)
    requires ConversationOf(l, from, other).Some?
    ensures ConversationOf(Joined(l, sender, cmd), from, other) == ConversationOf(l, from, other)
  {}

  lemma JoinedFiled(l: Ledger, sender: nat, cmd: Command)
    requires Filed(l)
    ensures Filed(Joined(l, sender, cmd))
  {
    var j := Joined(l, sender, cmd);
    assert j.messages == l.messages && j.lastSequence == l.lastSequence && j.nextConversation >= l.nextConversation;
    hide Joined;
    hide ConversationOf;
    forall id | id in l.messages
      ensures ConversationOf(j, l.messages[id].sender, l.messages[id].command) == Some(l.messages[id].conversation)
    {
      var m := l.messages[id];
      JoinedKeeps(l, sender, cmd, m.sender, m.command);
    }
  }

  lemma InsertedKeys(l: Ledger, draft: Message)
    requires KeysMatch(l.accepted, l.messages, l.nextMessage) && KeyOf(draft) !in l.accepted
    ensures var l' := Inserted(l, draft); KeysMatch(l'.accepted, l'.messages, l'.nextMessage)
  {}

  lemma InsertedEvents(l: Ledger, draft: Message)
    requires EventsMatch(l.outbox, l.messages, l.nextMessage, l.nextEvent)
    ensures var l' := Inserted(l, draft); EventsMatch(l'.outbox, l'.messages, l'.nextMessage, l'.nextEvent)
  {
    var l' := Inserted(l, draft);
    assert forall i :: 0 <= i < |l.outbox| ==> l'.outbox[i] == l.outbox[i];
  }

  lemma InsertedFiled(l: Ledger, draft: Message)
    requires Filed(l) && draft.conversation < l.nextConversation
    requires ConversationOf(l, draft.sender, draft.command) == Some(draft.conversation)
    ensures Filed(Inserted(l, draft))
  {
    var l', m := Inserted(l, draft), Numbered(l, draft);
    forall id | id in l'.messages
      ensures ConversationOf(l', l'.messages[id].sender, l'.messages[id].command) == Some(l'.messages[id].conversation)
    {
      if id == m.id {
        assert l'.messages[id] == m;
      } else {
        assert l'.messages[id] == l.messages[id];
      }
    }
  }

  lemma InsertedOrder(l: Ledger, draft: Message)
    requires KeysMatch(l.accepted, l.messages, l.nextMessage) && Within(l.messages, l.lastSequence)
    requires Ascending(l.messages)
    ensures var l' := Inserted(l, draft); Within(l'.messages, l'.lastSequence) && Ascending(l'.messages)
    ensures forall id :: id in l.messages && l.messages[id].conversation == draft.conversation
              ==> l.messages[id].sequence < Numbered(l, draft).sequence
  {}

  lemma InsertedDense(l: Ledger, draft: Message)
    requires KeysMatch(l.accepted, l.messages, l.nextMessage) && Dense(l.messages, l.lastSequence)
    ensures var l' := Inserted(l, draft); Dense(l'.messages, l'.lastSequence)
  {
    var l', m := Inserted(l, draft), Numbered(l, draft);
    forall c, s | c in l'.lastSequence && 1 <= s <= l'.lastSequence[c] ensures Holds(l'.messages, c, s) {
      if c == m.conversation && s == m.sequence {
        assert m.id in l'.messages && l'.messages[m.id] == m;
      } else {
        assert Holds(l.messages, c, s);
        var id :| id in l.messages && l.messages[id].conversation == c && l.messages[id].sequence == s;
        assert id in l'.messages && l'.messages[id] == l.messages[id];
      }
    }
  }

  lemma JoinedExact(l: Ledger, sender: nat, cmd: Command)
    requires Exact(l)
    ensures var j := Joined(l, sender, cmd);
      && Exact(j) && j.accepted == l.accepted && j.messages == l.messages
      && j.outbox == l.outbox && j.nextMessage == l.nextMessage
      && ConversationOf(j, sender, cmd).Some? && ConversationOf(j, sender, cmd).value < j.nextConversation
  {
    hide KeysMatch;
    hide EventsMatch;
    hide SequencesMatch;
    hide Separate;
    hide Filed;
    JoinedSeparate(l, sender, cmd);
    JoinedFiled(l, sender, cmd);
  }

  lemma InsertedExact(l: Ledger, draft: Message)
    requires Exact(l) && KeyOf(draft) !in l.accepted
    requires draft.conversation < l.nextConversation
    requires ConversationOf(l, draft.sender, draft.command) == Some(draft.conversation)
    ensures Exact(Inserted(l, draft))
    ensures forall id :: id in l.messages && l.messages[id].conversation == draft.conversation
              ==> l.messages[id].sequence < Numbered(l, draft).sequence
  {
    InsertedKeys(l, draft);
    InsertedEvents(l, draft);
    InsertedFiled(l, draft);
    InsertedOrder(l, draft);
    InsertedDense(l, draft);
  }

  /**
    Accepting under a fresh key keeps the ledger exact: the message takes the
    next id and the next number of its conversation, its key and its outbox
    event are new, and everything stored before is untouched.
  */
  lemma AcceptedExact(l: Ledger, sender: nat, cmd: Command, acceptedAt: int)
    requires Exact(l) && AcceptKey(sender, cmd.clientId) !in l.accepted
    ensures var l', m := Accepted(l, sender, cmd, acceptedAt), AcceptedMessage(l, sender, cmd, acceptedAt);
      && Exact(l') && m.id == l.nextMessage && m.sender == sender && m.command == cmd
      && l'.messages == l.messages[m.id := m] && l'.accepted == l.accepted[AcceptKey(sender, cmd.clientId) := m]
      && |l'.outbox| == |l.outbox| + 1 && l.outbox == l'.outbox[..|l.outbox|]
      && forall id :: id in l.messages && l.messages[id].conversation == m.conversation ==>
        l.messages[id].sequence < m.sequence
  {
    JoinedExact(l, sender, cmd);
    InsertedExact(Joined(l, sender, cmd), Draft(l, sender, cmd, acceptedAt));
  }

  /** A to B and B to A share a conversation, a group has its own, and nothing else is shared. */
  lemma SharedConversation(l: Ledger, a: nat, b: nat)
    requires Exact(l) && a in l.messages && b in l.messages
    ensures var x, y := l.messages[a], l.messages[b];
      x.conversation == y.conversation <==>
        && x.command.kind == y.command.kind
        && (if x.command.kind == Direct
            then {x.sender, x.command.directRecipient} == {y.sender, y.command.directRecipient}
            else x.command.groupId == y.command.groupId)
  {
    var x, y := l.messages[a], l.messages[b];
    if x.command.kind == Direct && y.command.kind == Direct {
      SamePair(x.sender, x.command.directRecipient, y.sender, y.command.directRecipient);
    }
  }

  lemma SamePair(a: nat, b: nat, c: nat, d: nat)
    ensures PairOf(a, b) == PairOf(c, d) <==> {a, b} == {c, d}
  {
    if PairOf(a, b) == PairOf(c, d) {
      assert {a, b} == {c, d};
    }
    if {a, b} == {c, d} {
      assert a in {c, d} && b in {c, d} && c in {a, b} && d in {a, b};
    }
  }

  lemma EmptyExact()
    ensures Exact(EMPTY)
  {}
}
