/**
  The Kafka consumer's poll: every fetched record is disposed of, offsets are
  committed only after the whole batch is terminal, and a bounded window of
  conversations decides what a replayed record is.  What the broker, the
  dead-letter store and the handler answer is arbitrary.  What the window
  guarantees over whole runs is in ConsumerReplay.
*/
module EventConsumer {
  import opened Counting
  import opened Domain

  /** A parsed envelope; `accepted` says the event type is the one known. */
  datatype Envelope = Envelope(messageId: nat, conversation: nat, sequence: nat, accepted: bool)

  /** A fetched record; no envelope means its payload could not be parsed. */
  datatype Raw = Raw(partition: nat, offset: int, envelope: Option<Envelope>)

  datatype Disposition = Advanced | DuplicateNoOp | DeadLettered

  datatype Seen = Seen(sequence: nat, messageId: nat)

  /** The in-memory window: last position per conversation, messages disposed of, insertion order. */
  datatype Window = Window(lastSeen: map<nat, Seen>, seenMessages: map<nat, set<nat>>, order: seq<nat>)

  const NOTHING_SEEN := Window(map[], map[], [])

  /** Whether the dead letter was stored, and what the handler returned, if it did not throw. */
  datatype Answer = Answer(stored: bool, handled: Option<Disposition>)

  // ---- One record ----

  /** Registers a conversation; a full window drops its oldest one. */
  function Touched(capacity: nat, w: Window, c: nat): Window
    requires capacity > 0
  {
    if c in w.lastSeen then w
    else if |w.order| >= capacity then
      Window(w.lastSeen - {w.order[0]}, w.seenMessages - {w.order[0]}, w.order[1..] + [c])
    else w.(order := w.order + [c])
  }

  predicate Evicts(capacity: nat, w: Window, c: nat) {
    c !in w.lastSeen && |w.order| >= capacity
  }

  function MessagesOf(w: Window, c: nat): set<nat> {
    if c in w.seenMessages then w.seenMessages[c] else {}
  }

  /** The window after the handler disposed of a record. */
  function Handled(capacity: nat, w: Window, e: Envelope, d: Disposition): Window
    requires capacity > 0
  {
    var c := e.conversation;
    var w1 := if d == DeadLettered then w
              else w.(seenMessages := w.seenMessages[c := MessagesOf(w, c) + {e.messageId}]);
    var w2 := Touched(capacity, w1, c);
    if c !in w.lastSeen || e.sequence > w.lastSeen[c].sequence
    then w2.(lastSeen := w2.lastSeen[c := Seen(e.sequence, e.messageId)]) else w2
  }

  datatype Rule = Poison | UnknownType | Duplicate | Regression | Conflict | Pass

  /** The first rule that applies, in the order of the pipeline. */
  function RuleOf(w: Window, envelope: Option<Envelope>): Rule {
    if envelope.None? then Poison
    else
      var e := envelope.value;
      if !e.accepted then UnknownType
      else if e.messageId in MessagesOf(w, e.conversation) then Duplicate
      else if e.conversation in w.lastSeen && e.sequence < w.lastSeen[e.conversation].sequence then Regression
      else if e.conversation in w.lastSeen && e.sequence == w.lastSeen[e.conversation].sequence
           && e.messageId != w.lastSeen[e.conversation].messageId then Conflict
      else Pass
  }

  /** The disposition, or None when the batch is aborted. */
  function DispositionOf(w: Window, envelope: Option<Envelope>, a: Answer): Option<Disposition> {
    match RuleOf(w, envelope)
    case Duplicate => Some(DuplicateNoOp)
    case Pass => a.handled
    case _ => if a.stored then Some(DeadLettered) else None
  }

  function Disposed(capacity: nat, w: Window, envelope: Option<Envelope>, a: Answer): Window
    requires capacity > 0
  {
    if RuleOf(w, envelope) == Pass && a.handled.Some? then Handled(capacity, w, envelope.value, a.handled.value) else w
  }

  // ---- The window's invariant ----

  /** The window tracks one duplicate-free set of conversations within its capacity. */
  ghost predicate Tracks(capacity: nat, w: Window) {
    && Distinct(w.order) && |w.order| <= capacity
    && (forall c :: c in w.lastSeen <==> c in w.order)
    && (forall c :: c in w.seenMessages ==> c in w.order)
  }

  lemma TouchedTracks(capacity: nat, w: Window, c: nat)
    requires capacity > 0 && Tracks(capacity, w)
    ensures var w' := Touched(capacity, w, c);
      && Distinct(w'.order) && |w'.order| <= capacity
      && (forall k :: k in w'.order <==> k == c || k in w'.lastSeen)
      && (forall k :: k in w'.seenMessages ==> k in w'.order)
      && (forall k :: k in w'.lastSeen ==> k in w.lastSeen)
  {
    if c !in w.lastSeen && |w.order| >= capacity {
      var oldest, rest := w.order[0], w.order[1..];
      assert forall k :: k in rest <==> k in w.order && k != oldest;
      assert forall k :: k in rest + [c] <==> k in rest || k == c;
    } else if c !in w.lastSeen {
      assert forall k :: k in w.order + [c] <==> k in w.order || k == c;
    }
  }

  lemma HandledTracks(capacity: nat, w: Window, e: Envelope, d: Disposition)
    requires capacity > 0 && Tracks(capacity, w)
    ensures Tracks(capacity, Handled(capacity, w, e, d))
  {
    var c := e.conversation;
    var w1 := if d == DeadLettered then w
              else w.(seenMessages := w.seenMessages[c := MessagesOf(w, c) + {e.messageId}]);
    var w2, t := Touched(capacity, w1, c), Touched(capacity, w, c);
    TouchedTracks(capacity, w, c);
    assert w2.order == t.order && w2.lastSeen == t.lastSeen;
    assert c in w2.order;
    assert forall k :: k in w2.seenMessages ==> k == c || k in t.seenMessages;
  }

  lemma DisposedTracks(capacity: nat, w: Window, envelope: Option<Envelope>, a: Answer)
    requires capacity > 0 && Tracks(capacity, w)
    ensures Tracks(capacity, Disposed(capacity, w, envelope, a))
  {
    if RuleOf(w, envelope) == Pass && a.handled.Some? {
      HandledTracks(capacity, w, envelope.value, a.handled.value);
    }
  }

  // ---- Polls and commits ----

  datatype Settings = Settings(capacity: nat, limit: nat)

  /**
    One poll: what was fetched, what store and handler answer per record, whether
    the hook before the commit returns, which partitions' commits reach the
    broker, and which of those the consumer hears of.
  */
  datatype Poll = Poll(
    fetched: seq<Raw>, answers: seq<Answer>, hookReturns: bool, landed: set<nat>, heard: set<nat>)

  /** A record with no answer listed finds the store failing and the handler throwing. */
  function AnswerAt(p: Poll, i: nat): Answer {
    if i < |p.answers| then p.answers[i] else Answer(false, None)
  }

  /**
    `committed` is what the broker keeps.  The last three are history: records
    the handler took, records dead-lettered by a rule or by the handler, and
    records passed over as repeats of a message already seen.
  */
  datatype Consumer = Consumer(
    window: Window, cursor: map<nat, int>, committed: map<nat, int>,
    handled: set<Raw>, dead: set<Raw>, repeats: set<Raw>)

  function Starting(start: map<nat, int>): Consumer {
    Consumer(NOTHING_SEEN, start, start, {}, {}, {})
  }

  /** The consumer after one record was disposed of. */
  function Passed(c: Settings, s: Consumer, raw: Raw, a: Answer): Consumer
    requires c.capacity > 0 && DispositionOf(s.window, raw.envelope, a).Some?
  {
    var s' := s.(window := Disposed(c.capacity, s.window, raw.envelope, a));
    var d := DispositionOf(s.window, raw.envelope, a).value;
    if d == DeadLettered then s'.(dead := s.dead + {raw})
    else if RuleOf(s.window, raw.envelope) == Duplicate then s'.(repeats := s.repeats + {raw})
    else s'.(handled := s.handled + {raw})
  }

  /** The consumer after the batch, how many records were disposed of, and whether it was aborted. */
  function Batch(c: Settings, s: Consumer, p: Poll, i: nat): (r: (Consumer, nat, bool))
    requires c.capacity > 0 && i <= |p.fetched|
    ensures i <= r.1 <= |p.fetched|
    decreases |p.fetched| - i
  {
    if i == |p.fetched| || i >= c.limit then (s, i, false)
    else if DispositionOf(s.window, p.fetched[i].envelope, AnswerAt(p, i)).None? then (s, i, true)
    else Batch(c, Passed(c, s, p.fetched[i], AnswerAt(p, i)), p, i + 1)
  }

  /** What is answered for the records of the batch, one by one. */
  function Dispositions(c: Settings, s: Consumer, p: Poll, i: nat): seq<Disposition>
    requires c.capacity > 0 && i <= |p.fetched|
    decreases |p.fetched| - i
  {
    if i == |p.fetched| || i >= c.limit then []
    else
      var d := DispositionOf(s.window, p.fetched[i].envelope, AnswerAt(p, i));
      if d.None? then [] else [d.value] + Dispositions(c, Passed(c, s, p.fetched[i], AnswerAt(p, i)), p, i + 1)
  }

  /** For each partition, one past the largest offset. */
  function ToCommit(rs: seq<Raw>): map<nat, int> {
    if rs == [] then map[]
    else
      var m, r := ToCommit(rs[..|rs| - 1]), rs[|rs| - 1];
      if r.partition !in m || r.offset + 1 > m[r.partition] then m[r.partition := r.offset + 1] else m
  }

  /** The marks of the given partitions moved to what is to be committed. */
  function Moved(marks: map<nat, int>, commit: map<nat, int>, of: set<nat>): map<nat, int> {
    marks + map q | q in commit.Keys && q in of :: commit[q]
  }

  function Polled(c: Settings, s: Consumer, p: Poll): Consumer
    requires c.capacity > 0
  {
    var (s', n, aborted) := Batch(c, s, p, 0);
    var commit := ToCommit(p.fetched[..n]);
    if aborted || n == 0 || !p.hookReturns then s'
    else s'.(cursor := Moved(s.cursor, commit, p.landed * p.heard), committed := Moved(s.committed, commit, p.landed))
  }

  /** A restarted consumer forgets its window and resumes from what the broker kept. */
  datatype Op = OpPoll(poll: Poll) | OpRestart

  function Step(c: Settings, s: Consumer, op: Op): Consumer
    requires c.capacity > 0
  {
    match op
    case OpPoll(p) => Polled(c, s, p)
    case OpRestart => s.(window := NOTHING_SEEN, cursor := s.committed)
  }

  function Run(c: Settings, s: Consumer, ops: seq<Op>): Consumer
    requires c.capacity > 0
  {
    if ops == [] then s else Step(c, Run(c, s, ops[..|ops| - 1]), ops[|ops| - 1])
  }

  /** The broker's partitions: distinct offsets, any gaps. */
  ghost predicate LogFits(log: map<nat, seq<Raw>>) {
    forall q, r, t :: q in log && r in log[q] && t in log[q] ==> r.partition == q && (r.offset == t.offset ==> r == t)
  }

  /** Each partition's records come in order from its cursor, none skipped. */
  ghost predicate InOrder(log: map<nat, seq<Raw>>, cursor: map<nat, int>, fetched: seq<Raw>) {
    forall i :: 0 <= i < |fetched| ==>
      var r := fetched[i];
      && r.partition in log && r.partition in cursor && r in log[r.partition]
      && forall t :: t in log[r.partition] && cursor[r.partition] <= t.offset < r.offset ==> t in fetched[..i]
  }

  ghost predicate Faithful(c: Settings, log: map<nat, seq<Raw>>, s: Consumer, ops: seq<Op>)
    requires c.capacity > 0
  {
    ops == [] || (
      var before := ops[..|ops| - 1];
      && Faithful(c, log, s, before)
      && (ops[|ops| - 1].OpPoll? ==> InOrder(log, Run(c, s, before).cursor, ops[|ops| - 1].poll.fetched)))
  }

  // ---- Nothing is skipped ----

  function Settled(s: Consumer): set<Raw> {
    s.handled + s.dead + s.repeats
  }

  /** Every record from the start up to the mark is settled. */
  ghost predicate SettledTo(log: map<nat, seq<Raw>>, start: map<nat, int>, marks: map<nat, int>, settled: set<Raw>) {
    && marks.Keys == start.Keys
    && forall q, r :: q in marks && q in log && r in log[q] && start[q] <= r.offset < marks[q] ==> r in settled
  }

  ghost predicate HandledAlready(handled: set<Raw>, conversation: nat, messageId: nat) {
    exists h :: h in handled && h.envelope.Some?
      && h.envelope.value.conversation == conversation && h.envelope.value.messageId == messageId
  }

  /** A repeat is of a message the handler took, and so is everything the window remembers. */
  ghost predicate Backed(s: Consumer) {
    && (forall r :: r in s.repeats ==>
          r.envelope.Some? && HandledAlready(s.handled, r.envelope.value.conversation, r.envelope.value.messageId))
    && (forall k, m :: k in s.window.seenMessages && m in s.window.seenMessages[k] ==> HandledAlready(s.handled, k, m))
  }

  ghost predicate Inv(log: map<nat, seq<Raw>>, start: map<nat, int>, s: Consumer) {
    SettledTo(log, start, s.cursor, Settled(s)) && SettledTo(log, start, s.committed, Settled(s)) && Backed(s)
  }

  lemma HandledMore(a: set<Raw>, b: set<Raw>, k: nat, m: nat)
    requires a <= b && HandledAlready(a, k, m)
    ensures HandledAlready(b, k, m)
  {
    var h :| h in a && h.envelope.Some? && h.envelope.value.conversation == k && h.envelope.value.messageId == m;
    assert h in b;
  }

  /** What the window remembers after a record was disposed of. */
  lemma PassedSeen(c: Settings, s: Consumer, raw: Raw, a: Answer, k: nat, m: nat)
    requires c.capacity > 0 && DispositionOf(s.window, raw.envelope, a).Some?
    requires var w := Passed(c, s, raw, a).window; k in w.seenMessages && m in w.seenMessages[k]
    ensures || (k in s.window.seenMessages && m in s.window.seenMessages[k])
            || (raw in Passed(c, s, raw, a).handled && raw.envelope.Some?
                && raw.envelope.value.conversation == k && raw.envelope.value.messageId == m)
  {}

  lemma PassedBacked(c: Settings, s: Consumer, raw: Raw, a: Answer)
    requires c.capacity > 0 && DispositionOf(s.window, raw.envelope, a).Some? && Backed(s)
    ensures Backed(Passed(c, s, raw, a))
  {
    hide HandledAlready;
    var s' := Passed(c, s, raw, a);
    assert s.handled <= s'.handled;
    forall r | r in s'.repeats
      ensures r.envelope.Some? && HandledAlready(s'.handled, r.envelope.value.conversation, r.envelope.value.messageId)
    {
      if r !in s.repeats {
        assert RuleOf(s.window, r.envelope) == Duplicate;
      }
      HandledMore(s.handled, s'.handled, r.envelope.value.conversation, r.envelope.value.messageId);
    }
    hide Passed;
    forall k, m | k in s'.window.seenMessages && m in s'.window.seenMessages[k]
      ensures HandledAlready(s'.handled, k, m)
    {
      PassedSeen(c, s, raw, a, k, m);
      if k in s.window.seenMessages && m in s.window.seenMessages[k] {
        HandledMore(s.handled, s'.handled, k, m);
      } else {
        HandledNow(s'.handled, raw);
      }
    }
  }

  lemma HandledNow(handled: set<Raw>, raw: Raw)
    requires raw in handled && raw.envelope.Some?
    ensures HandledAlready(handled, raw.envelope.value.conversation, raw.envelope.value.messageId)
  {}

  lemma PassedSettles(c: Settings, s: Consumer, raw: Raw, a: Answer)
    requires c.capacity > 0 && DispositionOf(s.window, raw.envelope, a).Some?
    ensures var s' := Passed(c, s, raw, a);
      Settled(s') == Settled(s) + {raw} && s'.cursor == s.cursor && s'.committed == s.committed
  {}

  /** A batch settles exactly the records it disposed of. */
  lemma {:induction false} BatchSettles(c: Settings, s: Consumer, p: Poll, i: nat)
    requires c.capacity > 0 && i <= |p.fetched| && Backed(s)
    ensures var r := Batch(c, s, p, i);
      && Backed(r.0) && r.0.cursor == s.cursor && r.0.committed == s.committed
      && (forall t :: t in Settled(r.0) <==> t in Settled(s) || t in p.fetched[i..r.1])
    decreases |p.fetched| - i
  {
    hide Backed;
    hide Passed;
    hide DispositionOf;
    hide Settled;
    if i < |p.fetched| && i < c.limit && DispositionOf(s.window, p.fetched[i].envelope, AnswerAt(p, i)).Some? {
      var s1 := Passed(c, s, p.fetched[i], AnswerAt(p, i));
      PassedBacked(c, s, p.fetched[i], AnswerAt(p, i));
      PassedSettles(c, s, p.fetched[i], AnswerAt(p, i));
      BatchSettles(c, s1, p, i + 1);
      var n := Batch(c, s1, p, i + 1).1;
      assert p.fetched[i..n] == [p.fetched[i]] + p.fetched[i + 1..n];
    }
  }

  lemma {:induction false} CommitFromRecord(rs: seq<Raw>, q: nat)
    requires q in ToCommit(rs)
    ensures exists i :: 0 <= i < |rs| && rs[i].partition == q && ToCommit(rs)[q] == rs[i].offset + 1
  {
    var init, r := rs[..|rs| - 1], rs[|rs| - 1];
    if r.partition == q && ToCommit(rs)[q] == r.offset + 1 {
      assert rs[|rs| - 1] == r;
    } else {
      CommitFromRecord(init, q);
      var i :| 0 <= i < |init| && init[i].partition == q && ToCommit(init)[q] == init[i].offset + 1;
      assert rs[i] == init[i];
    }
  }

  /** Committing past a record settles everything before it. */
  lemma CommitSettles(log: map<nat, seq<Raw>>, start: map<nat, int>, s: Consumer, done: seq<Raw>, q: nat, r: Raw,
                      settled: set<Raw>)
    requires LogFits(log) && SettledTo(log, start, s.cursor, Settled(s)) && InOrder(log, s.cursor, done)
    requires Settled(s) <= settled && (forall t :: t in done ==> t in settled)
    requires q in ToCommit(done) && q in log && r in log[q] && q in start && start[q] <= r.offset < ToCommit(done)[q]
    ensures r in settled && q in s.cursor
  {
    CommitFromRecord(done, q);
    var i :| 0 <= i < |done| && done[i].partition == q && ToCommit(done)[q] == done[i].offset + 1;
    if r.offset == done[i].offset {
      assert r == done[i];
    } else if r.offset >= s.cursor[q] {
      assert r in done[..i];
    }
  }

  lemma MovedSettled(log: map<nat, seq<Raw>>, start: map<nat, int>, s: Consumer, marks: map<nat, int>,
                     done: seq<Raw>, of: set<nat>, settled: set<Raw>)
    requires LogFits(log) && SettledTo(log, start, s.cursor, Settled(s)) && InOrder(log, s.cursor, done)
    requires SettledTo(log, start, marks, Settled(s))
    requires Settled(s) <= settled && (forall t :: t in done ==> t in settled)
    ensures SettledTo(log, start, Moved(marks, ToCommit(done), of), settled)
  {
    hide ToCommit;
    hide InOrder;
    hide LogFits;
    hide Settled;
    var commit := ToCommit(done);
    var marks' := Moved(marks, commit, of);
    forall q | q in commit ensures q in start {
      CommitKnown(log, start, s, done, q);
    }
    assert marks'.Keys == start.Keys;
    forall q, r | q in marks' && q in log && r in log[q] && start[q] <= r.offset < marks'[q] ensures r in settled {
      if q in commit && q in of {
        CommitSettles(log, start, s, done, q, r, settled);
      } else {
        assert marks'[q] == marks[q];
      }
    }
  }

  lemma CommitKnown(log: map<nat, seq<Raw>>, start: map<nat, int>, s: Consumer, done: seq<Raw>, q: nat)
    requires SettledTo(log, start, s.cursor, Settled(s)) && InOrder(log, s.cursor, done) && q in ToCommit(done)
    ensures q in start
  {
    CommitFromRecord(done, q);
  }

  lemma InOrderPrefix(log: map<nat, seq<Raw>>, cursor: map<nat, int>, fetched: seq<Raw>, n: nat)
    requires InOrder(log, cursor, fetched) && n <= |fetched|
    ensures InOrder(log, cursor, fetched[..n])
  {
    assert forall i :: 0 <= i < n ==> fetched[..n][i] == fetched[i] && fetched[..n][..i] == fetched[..i];
  }

  lemma MoreSettled(log: map<nat, seq<Raw>>, start: map<nat, int>, marks: map<nat, int>, a: set<Raw>, b: set<Raw>)
    requires SettledTo(log, start, marks, a) && a <= b
    ensures SettledTo(log, start, marks, b)
  {}

  lemma PolledInv(c: Settings, log: map<nat, seq<Raw>>, start: map<nat, int>, s: Consumer, p: Poll)
    requires c.capacity > 0 && LogFits(log) && Inv(log, start, s) && InOrder(log, s.cursor, p.fetched)
    ensures Inv(log, start, Polled(c, s, p))
  {
    hide Batch;
    hide ToCommit;
    hide InOrder;
    hide LogFits;
    hide Moved;
    hide Settled;
    hide SettledTo;
    hide Backed;
    var (s', n, aborted) := Batch(c, s, p, 0);
    var done, settled := p.fetched[..n], Settled(s');
    BatchSettles(c, s, p, 0);
    assert p.fetched[0..n] == done;
    InOrderPrefix(log, s.cursor, p.fetched, n);
    MoreSettled(log, start, s.cursor, Settled(s), settled);
    MoreSettled(log, start, s.committed, Settled(s), settled);
    MovedSettled(log, start, s, s.cursor, done, p.landed * p.heard, settled);
    MovedSettled(log, start, s, s.committed, done, p.landed, settled);
    SettledApart(s', Polled(c, s, p));
  }

  lemma SettledApart(s: Consumer, s': Consumer)
    requires s' == s.(cursor := s'.cursor, committed := s'.committed)
    ensures Settled(s') == Settled(s) && (Backed(s) ==> Backed(s'))
  {}

  lemma {:induction false} RunInv(c: Settings, log: map<nat, seq<Raw>>, start: map<nat, int>, s: Consumer, ops: seq<Op>)
    requires c.capacity > 0 && LogFits(log) && Inv(log, start, s) && Faithful(c, log, s, ops)
    ensures Inv(log, start, Run(c, s, ops))
  {
    hide Inv;
    hide LogFits;
    hide InOrder;
    hide Polled;
    if ops != [] {
      var before, last := ops[..|ops| - 1], ops[|ops| - 1];
      RunInv(c, log, start, s, before);
      if last.OpPoll? {
        PolledInv(c, log, start, Run(c, s, before), last.poll);
      } else {
        RestartInv(log, start, Run(c, s, before));
      }
    }
  }

  lemma RestartInv(log: map<nat, seq<Raw>>, start: map<nat, int>, s: Consumer)
    requires Inv(log, start, s)
    ensures Inv(log, start, s.(window := NOTHING_SEEN, cursor := s.committed))
  {
    hide HandledAlready;
  }

  /**
    Over every run of polls, aborts, failed or unheard commits and restarts: every
    record below a committed offset or a cursor, from where consumption began, was
    taken by the handler, dead-lettered, or repeats a message the handler took.
  */
  lemma NothingSkipped(c: Settings, log: map<nat, seq<Raw>>, start: map<nat, int>, ops: seq<Op>)
    requires c.capacity > 0 && LogFits(log) && Faithful(c, log, Starting(start), ops)
    ensures var s := Run(c, Starting(start), ops);
      && s.committed.Keys == s.cursor.Keys == start.Keys
      && (forall q, r :: q in start && q in log && r in log[q] && start[q] <= r.offset < s.committed[q]
            ==> r in s.handled || r in s.dead || r in s.repeats)
      && (forall q, r :: q in start && q in log && r in log[q] && start[q] <= r.offset < s.cursor[q]
            ==> r in s.handled || r in s.dead || r in s.repeats)
      && (forall r :: r in s.repeats ==>
            r.envelope.Some? && HandledAlready(s.handled, r.envelope.value.conversation, r.envelope.value.messageId))
  {
    hide LogFits;
    hide Faithful;
    assert Inv(log, start, Starting(start));
    RunInv(c, log, start, Starting(start), ops);
  }

  lemma AbortKeepsWindow(capacity: nat, w: Window, envelope: Option<Envelope>, a: Answer)
    requires capacity > 0
    ensures DispositionOf(w, envelope, a).None? ==> Disposed(capacity, w, envelope, a) == w
  {}

  lemma Moves(before: seq<Disposition>, d: Disposition, rest: seq<Disposition>)
    ensures before + ([d] + rest) == (before + [d]) + rest
  {}

  // ---- The consumer as the program writes it ----

  class KafkaEventConsumer {
    const settings: Settings
    var lastSeen: map<nat, Seen>
    var seenMessages: map<nat, set<nat>>
    var conversationOrder: seq<nat>
    var cursor: map<nat, int>
    ghost var committed: map<nat, int>
    ghost var handled: set<Raw>
    ghost var dead: set<Raw>
    ghost var repeats: set<Raw>

    ghost function View(): Consumer
      reads this
    {
      Consumer(Window(lastSeen, seenMessages, conversationOrder), cursor, committed, handled, dead, repeats)
    }

    /** A capacity of zero stands for the default of 100 conversations, a batch limit of zero for one record. */
    constructor (capacity: nat, limit: nat, start: map<nat, int>)
      ensures settings.capacity > 0 && View() == Starting(start)
      ensures settings.capacity == (if capacity > 0 then capacity else 100)
      ensures settings.limit == (if limit > 0 then limit else 1)
    {
      settings := Settings(if capacity > 0 then capacity else 100, if limit > 0 then limit else 1);
      lastSeen, seenMessages, conversationOrder := map[], map[], [];
      cursor, committed := start, start;
      handled, dead, repeats := {}, {}, {};
    }

    method TouchConversation(c: nat)
      requires settings.capacity > 0
      modifies `lastSeen, `seenMessages, `conversationOrder
      ensures View().window == Touched(settings.capacity, old(View()).window, c)
    {
      if c in lastSeen {
        return;
      }
      if |conversationOrder| >= settings.capacity {
        var oldest := conversationOrder[0];
        conversationOrder := conversationOrder[1..];
        lastSeen := lastSeen - {oldest};
        seenMessages := seenMessages - {oldest};
      }
      conversationOrder := conversationOrder + [c];
    }

    /** One record through the pipeline; None aborts the batch. */
    method Dispose(raw: Raw, a: Answer) returns (d: Option<Disposition>)
      requires settings.capacity > 0
      modifies `lastSeen, `seenMessages, `conversationOrder
      ensures d == DispositionOf(old(View()).window, raw.envelope, a)
      ensures View().window == Disposed(settings.capacity, old(View()).window, raw.envelope, a)
    {
      if raw.envelope.None? || !raw.envelope.value.accepted {
        return if a.stored then Some(DeadLettered) else None;
      }
      var e := raw.envelope.value;
      var c := e.conversation;
      if c in seenMessages && e.messageId in seenMessages[c] {
        return Some(DuplicateNoOp);
      }
      var known := c in lastSeen;
      if known && e.sequence < lastSeen[c].sequence {
        return if a.stored then Some(DeadLettered) else None;
      }
      if known && e.sequence == lastSeen[c].sequence && e.messageId != lastSeen[c].messageId {
        return if a.stored then Some(DeadLettered) else None;
      }
      d := a.handled;
      if d.None? {
        return;
      }
      var newer := !known || e.sequence > lastSeen[c].sequence;
      if d.value != DeadLettered {
        seenMessages := seenMessages[c := (if c in seenMessages then seenMessages[c] else {}) + {e.messageId}];
      }
      TouchConversation(c);
      if newer {
        lastSeen := lastSeen[c := Seen(e.sequence, e.messageId)];
      }
    }

    method CommitOffsets(done: seq<Raw>) returns (toCommit: map<nat, int>)
      ensures toCommit == ToCommit(done)
    {
      toCommit := map[];
      for i := 0 to |done|
        invariant toCommit == ToCommit(done[..i])
      {
        assert done[..i + 1][..i] == done[..i];
        var r := done[i];
        if r.partition !in toCommit || r.offset + 1 > toCommit[r.partition] {
          toCommit := toCommit[r.partition := r.offset + 1];
        }
      }
      assert done[..|done|] == done;
    }

    method PollOnce(p: Poll) returns (dispositions: seq<Disposition>, processed: bool)
      requires settings.capacity > 0
      modifies this
      ensures View() == Polled(settings, old(View()), p)
      ensures dispositions == Dispositions(settings, old(View()), p, 0)
      ensures var (_, n, aborted) := Batch(settings, old(View()), p, 0); |dispositions| == n && processed == !aborted
    {
      hide Disposed;
      hide DispositionOf;
      hide ToCommit;
      dispositions := [];
      var aborted, i := false, 0;
      ghost var first := View();
      while i < |p.fetched| && i < settings.limit
        invariant i == |dispositions| <= |p.fetched|
        invariant cursor == old(cursor) && committed == old(committed)
        invariant Batch(settings, View(), p, i) == Batch(settings, first, p, 0)
        invariant dispositions + Dispositions(settings, View(), p, i) == Dispositions(settings, first, p, 0)
      {
        ghost var s := View();
        AbortKeepsWindow(settings.capacity, s.window, p.fetched[i].envelope, AnswerAt(p, i));
        var d := Dispose(p.fetched[i], AnswerAt(p, i));
        if d.None? {
          aborted := true;
          break;
        }
        ghost var s' := Passed(settings, s, p.fetched[i], AnswerAt(p, i));
        handled, dead, repeats := s'.handled, s'.dead, s'.repeats;
        Moves(dispositions, d.value, Dispositions(settings, s', p, i + 1));
        dispositions := dispositions + [d.value];
        i := i + 1;
      }
      assert dispositions + [] == dispositions;
      assert aborted ==> Batch(settings, first, p, 0) == (View(), i, true);
      assert !aborted ==> Batch(settings, first, p, 0) == (View(), i, false);
      processed := !aborted;
      if aborted || i == 0 || !p.hookReturns {
        return;
      }
      var toCommit := CommitOffsets(p.fetched[..i]);
      committed := Moved(committed, toCommit, p.landed);
      cursor := Moved(cursor, toCommit, p.landed * p.heard);
    }
  }
}
