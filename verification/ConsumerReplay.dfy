/**
  What the Kafka consumer's bounded window guarantees over whole runs of polls and
  restarts: when a record that was already advanced is recognised when it comes
  again, and when it is taken for a regression instead.
*/
module ConsumerReplay {
  import opened Counting
  import opened Domain
  import opened EventConsumer

  // ---- The history of a run ----

  datatype Item = Item(envelope: Option<Envelope>, answer: Answer)

  /**
    What was observed since the last restart, replays included: which records were
    advanced, which conversations were handled, whether any was evicted from the
    window, whether a record already advanced was dead-lettered when it came again,
    and the records the handler answered, in order.
  */
  datatype History = History(
    window: Window, advanced: set<Envelope>, conversations: set<nat>, evicted: bool, hurt: bool, passed: seq<Envelope>)

  const FRESH := History(NOTHING_SEEN, {}, {}, false, false, [])

  function Observed(capacity: nat, h: History, item: Item): History
    requires capacity > 0
  {
    var w, e := h.window, item.envelope;
    var d, passed := DispositionOf(w, e, item.answer), RuleOf(w, e) == Pass && item.answer.handled.Some?;
    History(Disposed(capacity, w, e, item.answer),
            if passed && d == Some(Advanced) then h.advanced + {e.value} else h.advanced,
            if passed then h.conversations + {e.value.conversation} else h.conversations,
            h.evicted || (passed && Evicts(capacity, w, e.value.conversation)),
            h.hurt || (e.Some? && e.value in h.advanced && d == Some(DeadLettered)),
            if passed then h.passed + [e.value] else h.passed)
  }

  function ItemAt(p: Poll, i: nat): Item
    requires i < |p.fetched|
  {
    Item(p.fetched[i].envelope, AnswerAt(p, i))
  }

  /** The history after the records from i up to n of a poll. */
  function Extended(capacity: nat, h: History, p: Poll, i: nat, n: nat): History
    requires capacity > 0 && i <= n <= |p.fetched|
    decreases n - i
  {
    if i == n then h else Extended(capacity, Observed(capacity, h, ItemAt(p, i)), p, i + 1, n)
  }

  /** The history of the records the polls since the last restart disposed of. */
  function HistoryOf(c: Settings, start: map<nat, int>, ops: seq<Op>): History
    requires c.capacity > 0
  {
    if ops == [] then FRESH
    else
      var before := ops[..|ops| - 1];
      match ops[|ops| - 1]
      case OpRestart => FRESH
      case OpPoll(p) =>
        Extended(c.capacity, HistoryOf(c, start, before), p, 0, Batch(c, Run(c, Starting(start), before), p, 0).1)
  }

  /** Until something is evicted, every advanced record is remembered. */
  ghost predicate Remembers(h: History) {
    !h.evicted ==>
      && !h.hurt
      && forall e :: e in h.advanced ==> e.accepted && e.messageId in MessagesOf(h.window, e.conversation)
  }

  /** An eviction needs more conversations than the window holds. */
  ghost predicate Crowded(capacity: nat, h: History) {
    (h.evicted ==> |h.conversations| > capacity) && (forall c :: c in h.window.order ==> c in h.conversations)
  }

  ghost predicate Sound(capacity: nat, h: History) {
    Tracks(capacity, h.window) && Remembers(h) && Crowded(capacity, h)
  }

  lemma SeenRemembers(capacity: nat, h: History, item: Item)
    requires capacity > 0 && Tracks(capacity, h.window) && Remembers(h)
    ensures Remembers(Observed(capacity, h, item))
  {
    hide Tracks;
  }

  lemma SeenCrowded(capacity: nat, h: History, item: Item)
    requires capacity > 0 && Tracks(capacity, h.window) && Crowded(capacity, h)
    ensures Crowded(capacity, Observed(capacity, h, item))
  {
    var w, h' := h.window, Observed(capacity, h, item);
    if h'.conversations != h.conversations || h'.window != w {
      var c := item.envelope.value.conversation;
      TouchedTracks(capacity, w, c);
      assert h'.window.order == Touched(capacity, w, c).order;
      SubsetCount(h.conversations, h'.conversations);
    }
    if h'.evicted && !h.evicted {
      var c := item.envelope.value.conversation;
      DistinctCount(w.order);
      assert c !in w.order;
      SubsetCount(Elements(w.order) + {c}, h'.conversations);
    }
  }

  lemma SeenTracks(capacity: nat, h: History, item: Item)
    requires capacity > 0 && Tracks(capacity, h.window)
    ensures Tracks(capacity, Observed(capacity, h, item).window)
  {
    DisposedTracks(capacity, h.window, item.envelope, item.answer);
  }

  lemma FreshSound(capacity: nat)
    ensures Sound(capacity, FRESH)
  {}

  lemma ObservedSound(capacity: nat, h: History, item: Item)
    requires capacity > 0 && Sound(capacity, h)
    ensures Sound(capacity, Observed(capacity, h, item))
  {
    hide Observed;
    hide Tracks;
    hide Remembers;
    hide Crowded;
    SeenTracks(capacity, h, item);
    SeenRemembers(capacity, h, item);
    SeenCrowded(capacity, h, item);
  }

  lemma {:induction false} ExtendedSound(capacity: nat, h: History, p: Poll, i: nat, n: nat)
    requires capacity > 0 && i <= n <= |p.fetched| && Sound(capacity, h)
    ensures Sound(capacity, Extended(capacity, h, p, i, n))
    decreases n - i
  {
    hide Observed;
    hide Sound;
    if i < n {
      ObservedSound(capacity, h, ItemAt(p, i));
      ExtendedSound(capacity, Observed(capacity, h, ItemAt(p, i)), p, i + 1, n);
    }
  }

  lemma WindowMoves(c: Settings, h: History, s: Consumer, p: Poll, i: nat)
    requires c.capacity > 0 && i < |p.fetched| && h.window == s.window
    requires DispositionOf(s.window, p.fetched[i].envelope, AnswerAt(p, i)).Some?
    ensures Observed(c.capacity, h, ItemAt(p, i)).window == Passed(c, s, p.fetched[i], AnswerAt(p, i)).window
  {}

  /** A batch takes the window where the records it disposed of take the history. */
  lemma {:induction false} BatchIsObserved(c: Settings, h: History, s: Consumer, p: Poll, i: nat)
    requires c.capacity > 0 && i <= |p.fetched| && h.window == s.window
    ensures var (s', n, aborted) := Batch(c, s, p, i); Extended(c.capacity, h, p, i, n).window == s'.window
    decreases |p.fetched| - i
  {
    hide Observed;
    hide Passed;
    hide DispositionOf;
    if i < |p.fetched| && i < c.limit && DispositionOf(s.window, p.fetched[i].envelope, AnswerAt(p, i)).Some? {
      WindowMoves(c, h, s, p, i);
      var s1 := Passed(c, s, p.fetched[i], AnswerAt(p, i));
      BatchIsObserved(c, Observed(c.capacity, h, ItemAt(p, i)), s1, p, i + 1);
    }
  }

  /** The consumer's window is that of its history, and the history is sound. */
  lemma {:induction false} HistoryTold(c: Settings, start: map<nat, int>, ops: seq<Op>)
    requires c.capacity > 0
    ensures HistoryOf(c, start, ops).window == Run(c, Starting(start), ops).window
    ensures Sound(c.capacity, HistoryOf(c, start, ops))
  {
    hide Batch;
    hide Extended;
    hide Sound;
    FreshSound(c.capacity);
    if ops != [] {
      var before, last := ops[..|ops| - 1], ops[|ops| - 1];
      HistoryTold(c, start, before);
      if last.OpPoll? {
        var h, s := HistoryOf(c, start, before), Run(c, Starting(start), before);
        BatchIsObserved(c, h, s, last.poll, 0);
        ExtendedSound(c.capacity, h, last.poll, 0, Batch(c, s, last.poll, 0).1);
      }
    }
  }

  /**
    After every run of polls and restarts the two structures of the window name the
    same conversations, each once, within capacity.
  */
  lemma WindowIsConsistent(c: Settings, start: map<nat, int>, ops: seq<Op>)
    requires c.capacity > 0
    ensures var w := Run(c, Starting(start), ops).window;
      && w.lastSeen.Keys == Elements(w.order) && Distinct(w.order) && |w.order| <= c.capacity
      && w.seenMessages.Keys <= w.lastSeen.Keys
  {
    hide Run;
    hide HistoryOf;
    HistoryTold(c, start, ops);
  }

  // ---- Order ----

  /** Every record handled of a conversation is at or before its last position, and nothing else is at that position. */
  ghost predicate Lined(w: Window, passed: seq<Envelope>) {
    forall e :: e in passed ==>
      && e.conversation in w.lastSeen && e.sequence <= w.lastSeen[e.conversation].sequence
      && (e.sequence == w.lastSeen[e.conversation].sequence ==> e.messageId == w.lastSeen[e.conversation].messageId)
  }

  ghost predicate InLine(passed: seq<Envelope>) {
    forall i, j :: 0 <= i < j < |passed| && passed[i].conversation == passed[j].conversation ==>
      && passed[i].sequence <= passed[j].sequence
      && (passed[i].sequence == passed[j].sequence ==> passed[i].messageId == passed[j].messageId)
  }

  ghost predicate Ordered(h: History) {
    !h.evicted ==> Lined(h.window, h.passed) && InLine(h.passed)
  }

  lemma ObservedOrdered(capacity: nat, h: History, item: Item)
    requires capacity > 0 && Ordered(h)
    ensures Ordered(Observed(capacity, h, item))
  {
    var h' := Observed(capacity, h, item);
    if !h'.evicted && h'.passed != h.passed {
      var e := item.envelope.value;
      assert h'.passed == h.passed + [e];
      forall i | 0 <= i < |h.passed| && h.passed[i].conversation == e.conversation
        ensures h.passed[i].sequence <= e.sequence
        ensures h.passed[i].sequence == e.sequence ==> h.passed[i].messageId == e.messageId
      {
        assert h.passed[i] in h.passed;
      }
      assert InLine(h'.passed);
      forall x | x in h'.passed
        ensures var w := h'.window;
          && x.conversation in w.lastSeen && x.sequence <= w.lastSeen[x.conversation].sequence
          && (x.sequence == w.lastSeen[x.conversation].sequence ==>
                x.messageId == w.lastSeen[x.conversation].messageId)
      {
        assert x == e || x in h.passed;
      }
    }
  }

  lemma {:induction false} ExtendedOrdered(capacity: nat, h: History, p: Poll, i: nat, n: nat)
    requires capacity > 0 && i <= n <= |p.fetched| && Ordered(h)
    ensures Ordered(Extended(capacity, h, p, i, n))
    decreases n - i
  {
    hide Observed;
    hide Ordered;
    if i < n {
      ObservedOrdered(capacity, h, ItemAt(p, i));
      ExtendedOrdered(capacity, Observed(capacity, h, ItemAt(p, i)), p, i + 1, n);
    }
  }

  lemma {:induction false} RunOrdered(c: Settings, start: map<nat, int>, ops: seq<Op>)
    requires c.capacity > 0
    ensures Ordered(HistoryOf(c, start, ops))
  {
    hide Batch;
    hide Run;
    hide Extended;
    if ops != [] && ops[|ops| - 1].OpPoll? {
      var before, p := ops[..|ops| - 1], ops[|ops| - 1].poll;
      RunOrdered(c, start, before);
      hide Ordered;
      ExtendedOrdered(c.capacity, HistoryOf(c, start, before), p, 0, Batch(c, Run(c, Starting(start), before), p, 0).1);
    }
  }

  /**
    In every run that handles no more conversations after its last restart than the
    window holds, the handler gets the records of each conversation in the order of
    their sequence numbers, and never two messages under one number.
  */
  lemma HandledInOrder(c: Settings, start: map<nat, int>, ops: seq<Op>, i: nat, j: nat)
    requires c.capacity > 0 && |HistoryOf(c, start, ops).conversations| <= c.capacity
    requires i < j < |HistoryOf(c, start, ops).passed|
    requires HistoryOf(c, start, ops).passed[i].conversation == HistoryOf(c, start, ops).passed[j].conversation
    ensures var passed := HistoryOf(c, start, ops).passed;
      && passed[i].sequence <= passed[j].sequence
      && (passed[i].sequence == passed[j].sequence ==> passed[i].messageId == passed[j].messageId)
  {
    hide HistoryOf;
    hide Tracks;
    hide Remembers;
    HistoryTold(c, start, ops);
    RunOrdered(c, start, ops);
  }

  // ---- Replay ----

  /**
    Faithful runs that handle at most n conversations after their last restart
    never dead-letter a record they advanced.
  */
  ghost predicate ReplaySafe(c: Settings, n: nat)
    requires c.capacity > 0
  {
    forall log, start, ops ::
      LogFits(log) && Faithful(c, log, Starting(start), ops) && |HistoryOf(c, start, ops).conversations| <= n
      ==> !HistoryOf(c, start, ops).hurt
  }

  const ADVANCE := Answer(true, Some(Advanced))

  const REPLAYED := Envelope(1, 0, 3, true)

  /**
    Message 1 of conversation 0 at sequence 3, one message of each of the
    conversations 1 to `capacity`, message 2 of conversation 0 at sequence 5, and
    from there on the first event again.
  */
  function Script(capacity: nat, k: nat): Envelope {
    if 1 <= k <= capacity then Envelope(1, k, 1, true)
    else if k == capacity + 1 then Envelope(2, 0, 5, true)
    else REPLAYED
  }

  function Record(capacity: nat, k: nat): Raw {
    Raw(0, k, Some(Script(capacity, k)))
  }

  /** The first k records of the script, all in partition 0. */
  function Records(capacity: nat, k: nat): (rs: seq<Raw>)
    ensures |rs| == k && forall i :: 0 <= i < k ==> rs[i] == Record(capacity, i)
  {
    seq(k, i requires i >= 0 => Record(capacity, i))
  }

  /** The history after the first k records of the script. */
  function Told(capacity: nat, k: nat): History
    requires capacity > 0
  {
    if k == 0 then FRESH
    else Observed(capacity, Told(capacity, k - 1), Item(Some(Script(capacity, k - 1)), ADVANCE))
  }

  lemma {:induction false} ToldSound(capacity: nat, k: nat)
    requires capacity > 0
    ensures Sound(capacity, Told(capacity, k))
  {
    hide Observed;
    hide Sound;
    hide Script;
    if k == 0 {
      FreshSound(capacity);
    } else {
      ToldSound(capacity, k - 1);
      ObservedSound(capacity, Told(capacity, k - 1), Item(Some(Script(capacity, k - 1)), ADVANCE));
    }
  }

  function UpTo(k: nat): seq<nat> {
    seq(k + 1, i requires 0 <= i <= k => i)
  }

  lemma NotYet(capacity: nat)
    requires capacity > 0
    ensures capacity !in UpTo(capacity - 1) && 0 !in UpTo(capacity - 1)[1..] + [capacity]
  {}

  /** A new conversation passes the rules and joins the window. */
  lemma Joins(capacity: nat, h: History, m: nat, c: nat, position: nat)
    requires capacity > 0 && Tracks(capacity, h.window) && c !in h.window.order
    ensures var h' := Observed(capacity, h, Item(Some(Envelope(m, c, position, true)), ADVANCE));
      && h'.advanced == h.advanced + {Envelope(m, c, position, true)} && h'.conversations == h.conversations + {c}
      && h'.window.order == (if |h.window.order| >= capacity then h.window.order[1..] else h.window.order) + [c]
      && c in h'.window.lastSeen && h'.window.lastSeen[c] == Seen(position, m) && MessagesOf(h'.window, c) == {m}
      && (forall k :: k in h.window.lastSeen && |h.window.order| < capacity ==>
            k in h'.window.lastSeen && h'.window.lastSeen[k] == h.window.lastSeen[k]
            && MessagesOf(h'.window, k) == MessagesOf(h.window, k))
  {
    assert c !in h.window.lastSeen && c !in h.window.seenMessages;
  }

  lemma {:induction false} ScriptFills(capacity: nat, k: nat)
    requires k < capacity
    ensures var h := Told(capacity, k + 1);
      && h.window.order == UpTo(k) && h.conversations == Numbers(k) && REPLAYED in h.advanced
      && 0 in h.window.lastSeen && h.window.lastSeen[0] == Seen(3, 1) && MessagesOf(h.window, 0) == {1}
  {
    hide Observed;
    hide Tracks;
    hide Remembers;
    hide Crowded;
    hide Told;
    ToldSound(capacity, k);
    ToldStep(capacity, k);
    if k == 0 {
      ToldNone(capacity);
      Joins(capacity, FRESH, 1, 0, 3);
      assert [] + [0] == UpTo(0);
    } else {
      ScriptFills(capacity, k - 1);
      NotYet(k);
      Joins(capacity, Told(capacity, k), 1, k, 1);
      assert UpTo(k - 1) + [k] == UpTo(k);
    }
  }

  lemma ToldStep(capacity: nat, k: nat)
    requires capacity > 0
    ensures Told(capacity, k + 1)
         == Observed(capacity, Told(capacity, k), Item(Some(Script(capacity, k)), ADVANCE))
  {}

  lemma ToldNone(capacity: nat)
    requires capacity > 0
    ensures Told(capacity, 0) == FRESH
  {}

  lemma TakenForRegression(capacity: nat, h: History, e: Envelope)
    requires capacity > 0 && e in h.advanced && e.accepted && e.conversation in h.window.lastSeen
    requires e.sequence < h.window.lastSeen[e.conversation].sequence
    requires e.messageId !in MessagesOf(h.window, e.conversation)
    ensures var h' := Observed(capacity, h, Item(Some(e), ADVANCE)); h'.hurt && h'.conversations == h.conversations
  {}

  /** One conversation more than the window holds, and a record that comes again is taken for a regression. */
  lemma ScriptHurts(capacity: nat)
    requires capacity > 0
    ensures Told(capacity, capacity + 3).hurt && |Told(capacity, capacity + 3).conversations| == capacity + 1
    ensures Observed(capacity, Told(capacity, capacity + 2), Item(Some(REPLAYED), ADVANCE)).hurt
  {
    hide Observed;
    hide Tracks;
    hide Remembers;
    hide Crowded;
    hide Told;
    ScriptFills(capacity, capacity - 1);
    ToldSound(capacity, capacity);
    NotYet(capacity);
    ToldStep(capacity, capacity);
    Joins(capacity, Told(capacity, capacity), 1, capacity, 1);
    ToldSound(capacity, capacity + 1);
    assert Told(capacity, capacity + 1).window.order == UpTo(capacity - 1)[1..] + [capacity];
    ToldStep(capacity, capacity + 1);
    Joins(capacity, Told(capacity, capacity + 1), 2, 0, 5);
    ToldStep(capacity, capacity + 2);
    TakenForRegression(capacity, Told(capacity, capacity + 2), REPLAYED);
    NumbersCount(capacity);
    assert Told(capacity, capacity + 2).conversations == Numbers(capacity);
  }

  // ---- A republished event, one record per poll ----

  /** A poll of the script's record k, whose commit lands and is heard. */
  function PollOf(capacity: nat, k: nat): Poll {
    Poll([Record(capacity, k)], [ADVANCE], true, {0}, {0})
  }

  /** Polls of the first k records, one each. */
  function PollsOf(capacity: nat, k: nat): seq<Op> {
    if k == 0 then [] else PollsOf(capacity, k - 1) + [OpPoll(PollOf(capacity, k - 1))]
  }

  lemma OneRecordBatch(c: Settings, s: Consumer, k: nat)
    requires c.capacity > 0 && c.limit > 0
    ensures Batch(c, s, PollOf(c.capacity, k), 0)
         == (Passed(c, s, Record(c.capacity, k), ADVANCE), 1, false)
  {
    var p := PollOf(c.capacity, k);
    assert Batch(c, Passed(c, s, Record(c.capacity, k), ADVANCE), p, 1).1 == 1;
  }

  lemma OneRecordPolled(c: Settings, s: Consumer, k: nat)
    requires c.capacity > 0 && c.limit > 0 && s.cursor == map[0 := k]
    ensures Polled(c, s, PollOf(c.capacity, k)).cursor == map[0 := k + 1]
  {
    hide Batch;
    hide Script;
    OneRecordBatch(c, s, k);
    var p := PollOf(c.capacity, k);
    assert p.fetched[..1] == [Record(c.capacity, k)];
    assert p.fetched[..1][..0] == [];
    assert ToCommit([]) == map[];
    assert ToCommit(p.fetched[..1]) == map[0 := k + 1];
  }

  /** The records of partition 0 in a log without gaps. */
  ghost predicate Gapless(rs: seq<Raw>) {
    forall i :: 0 <= i < |rs| ==> rs[i].partition == 0 && rs[i].offset == i
  }

  lemma GaplessFits(rs: seq<Raw>)
    requires Gapless(rs)
    ensures LogFits(map[0 := rs])
  {}

  /** A fetch from the cursor on is in order. */
  lemma GaplessInOrder(rs: seq<Raw>, k: nat, m: nat)
    requires Gapless(rs) && k <= m <= |rs|
    ensures InOrder(map[0 := rs], map[0 := k], rs[k..m])
  {
    var fetched := rs[k..m];
    forall i | 0 <= i < |fetched| ensures fetched[i] in rs && fetched[i].partition == 0 && fetched[i].offset == k + i {
      assert fetched[i] == rs[k + i];
    }
    forall i, t | 0 <= i < |fetched| && t in rs && k <= t.offset < fetched[i].offset ensures t in fetched[..i] {
      var n :| 0 <= n < |rs| && rs[n] == t;
      assert fetched[..i][n - k] == t;
    }
  }

  lemma FaithfulPoll(c: Settings, log: map<nat, seq<Raw>>, s: Consumer, ops: seq<Op>, p: Poll)
    requires c.capacity > 0 && Faithful(c, log, s, ops) && InOrder(log, Run(c, s, ops).cursor, p.fetched)
    ensures Faithful(c, log, s, ops + [OpPoll(p)]) && Run(c, s, ops + [OpPoll(p)]) == Polled(c, Run(c, s, ops), p)
  {
    assert (ops + [OpPoll(p)])[..|ops|] == ops;
  }

  /** Polling the script one record at a time is a faithful run that moves the cursor one by one. */
  lemma {:induction false} PollsAreFaithful(c: Settings, rs: seq<Raw>, k: nat)
    requires c.capacity > 0 && c.limit > 0 && Gapless(rs) && k <= |rs| && rs[..k] == Records(c.capacity, k)
    ensures var s, ops := Starting(map[0 := 0]), PollsOf(c.capacity, k);
      Faithful(c, map[0 := rs], s, ops) && Run(c, s, ops).cursor == map[0 := k]
  {
    hide InOrder;
    hide Polled;
    hide PollOf;
    hide Record;
    hide Gapless;
    if k > 0 {
      assert rs[..k - 1] == rs[..k][..k - 1] == Records(c.capacity, k - 1);
      PollsAreFaithful(c, rs, k - 1);
      assert rs[k - 1..k] == [rs[..k][k - 1]] == [Record(c.capacity, k - 1)];
      GaplessInOrder(rs, k - 1, k);
      PollsSplit(c.capacity, k);
      OneRecordPolled(c, Run(c, Starting(map[0 := 0]), PollsOf(c.capacity, k - 1)), k - 1);
      FetchesOne(c.capacity, k - 1);
    }
  }

  lemma FetchesOne(capacity: nat, k: nat)
    ensures PollOf(capacity, k).fetched == [Record(capacity, k)]
  {}

  lemma PollsSplit(capacity: nat, k: nat)
    requires k > 0
    ensures var ops := PollsOf(capacity, k);
      |ops| > 0 && ops[..|ops| - 1] == PollsOf(capacity, k - 1) && ops[|ops| - 1] == OpPoll(PollOf(capacity, k - 1))
  {}

  lemma {:induction false} PollsTell(c: Settings, k: nat)
    requires c.capacity > 0 && c.limit > 0
    ensures HistoryOf(c, map[0 := 0], PollsOf(c.capacity, k)) == Told(c.capacity, k)
  {
    hide Batch;
    hide Observed;
    hide Extended;
    hide PollOf;
    hide PollsOf;
    hide Run;
    hide Passed;
    if k == 0 {
      NoPolls(c.capacity);
    } else {
      PollsTell(c, k - 1);
      PollsSplit(c.capacity, k);
      OneRecordBatch(c, Run(c, Starting(map[0 := 0]), PollsOf(c.capacity, k - 1)), k - 1);
      FetchesOne(c.capacity, k - 1);
      ExtendedOnce(c.capacity, Told(c.capacity, k - 1), k - 1);
    }
  }

  lemma NoPolls(capacity: nat)
    ensures PollsOf(capacity, 0) == []
  {}

  lemma ExtendedOnce(capacity: nat, h: History, k: nat)
    requires capacity > 0
    ensures |PollOf(capacity, k).fetched| == 1
    ensures Extended(capacity, h, PollOf(capacity, k), 0, 1)
         == Observed(capacity, h, Item(Some(Script(capacity, k)), ADVANCE))
  {
    hide Observed;
    var p := PollOf(capacity, k);
    assert ItemAt(p, 0) == Item(Some(Script(capacity, k)), ADVANCE);
  }

  /**
    For every capacity and batch limit: an event published again after its
    conversation was evicted and came back is dead-lettered, in a run of
    single-record polls whose commits all land.
  */
  lemma RepublishedHurts(c: Settings)
    requires c.capacity > 0 && c.limit > 0
    ensures var log, start := map[0 := Records(c.capacity, c.capacity + 3)], map[0 := 0];
      var ops := PollsOf(c.capacity, c.capacity + 3);
      && LogFits(log) && Faithful(c, log, Starting(start), ops)
      && HistoryOf(c, start, ops).hurt && |HistoryOf(c, start, ops).conversations| == c.capacity + 1
  {
    hide Faithful;
    hide HistoryOf;
    hide Told;
    hide LogFits;
    hide PollsOf;
    var rs := Records(c.capacity, c.capacity + 3);
    GaplessFits(rs);
    assert rs[..c.capacity + 3] == rs;
    PollsAreFaithful(c, rs, c.capacity + 3);
    PollsTell(c, c.capacity + 3);
    ScriptHurts(c.capacity);
  }

  /** The replay guarantee, exactly: it holds for runs over as many conversations as the window holds. */
  lemma ReplaySafeExactly(c: Settings, n: nat)
    requires c.capacity > 0 && c.limit > 0
    ensures ReplaySafe(c, n) <==> n <= c.capacity
  {
    hide Faithful;
    hide HistoryOf;
    hide LogFits;
    if n <= c.capacity {
      forall log, start, ops |
        LogFits(log) && Faithful(c, log, Starting(start), ops) && |HistoryOf(c, start, ops).conversations| <= n
        ensures !HistoryOf(c, start, ops).hurt
      {
        HistoryTold(c, start, ops);
      }
    } else {
      RepublishedHurts(c);
    }
  }
}
