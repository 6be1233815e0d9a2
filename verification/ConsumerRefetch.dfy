/**
  A batch fetched again because its commit did not land: up to which batch limit
  the consumer's window recognises all of it.
*/
module ConsumerRefetch {
  import opened Counting
  import opened Domain
  import opened EventConsumer
  import opened ConsumerReplay

  // ---- From a fresh start ----

  /** From a fresh start the batch is fetched and advanced, its commit does not land, and it is fetched again. */
  ghost predicate Refetched(c: Settings, log: map<nat, seq<Raw>>, start: map<nat, int>, p: Poll)
    requires c.capacity > 0
  {
    && LogFits(log) && Faithful(c, log, Starting(start), [OpPoll(p), OpPoll(p)]) && p.landed == {}
    && (forall i :: 0 <= i < |p.fetched| ==> AnswerAt(p, i) == ADVANCE)
  }

  ghost predicate RefetchSafe(c: Settings)
    requires c.capacity > 0
  {
    forall log, start, p ::
      Refetched(c, log, start, p) ==> !HistoryOf(c, start, [OpPoll(p), OpPoll(p)]).hurt
  }

  /** Two polls of the same batch extend the history twice by at most `limit` of its records. */
  lemma TwicePolled(c: Settings, start: map<nat, int>, p: Poll) returns (a: nat, b: nat)
    requires c.capacity > 0
    ensures a <= |p.fetched| && b <= |p.fetched| && a <= c.limit && b <= c.limit
    ensures HistoryOf(c, start, [OpPoll(p), OpPoll(p)])
         == Extended(c.capacity, Extended(c.capacity, FRESH, p, 0, a), p, 0, b)
    ensures a == Batch(c, Starting(start), p, 0).1
    ensures b == Batch(c, Polled(c, Starting(start), p), p, 0).1
  {
    hide Extended;
    hide Batch;
    hide Polled;
    var s, ops := Starting(start), [OpPoll(p), OpPoll(p)];
    assert ops[..1] == [OpPoll(p)] && ops[..1][..0] == [];
    assert Run(c, s, []) == s && Run(c, s, ops[..1]) == Polled(c, s, p);
    assert HistoryOf(c, start, []) == FRESH;
    a, b := Batch(c, s, p, 0).1, Batch(c, Polled(c, s, p), p, 0).1;
    assert HistoryOf(c, start, ops[..1]) == Extended(c.capacity, FRESH, p, 0, a);
    BatchWithin(c, s, p, 0);
    BatchWithin(c, Polled(c, s, p), p, 0);
  }

  lemma {:induction false} BatchWithin(c: Settings, s: Consumer, p: Poll, i: nat)
    requires c.capacity > 0 && i <= |p.fetched| && i <= c.limit
    ensures Batch(c, s, p, i).1 <= c.limit
    decreases |p.fetched| - i
  {
    hide Passed;
    hide DispositionOf;
    if i < |p.fetched| && i < c.limit && DispositionOf(s.window, p.fetched[i].envelope, AnswerAt(p, i)).Some? {
      BatchWithin(c, Passed(c, s, p.fetched[i], AnswerAt(p, i)), p, i + 1);
    }
  }

  lemma {:induction false} WholeBatch(c: Settings, s: Consumer, p: Poll, i: nat)
    requires c.capacity > 0 && i <= |p.fetched| <= c.limit
    requires forall k :: 0 <= k < |p.fetched| ==> AnswerAt(p, k) == ADVANCE
    ensures Batch(c, s, p, i).1 == |p.fetched| && !Batch(c, s, p, i).2
    decreases |p.fetched| - i
  {
    hide Passed;
    if i < |p.fetched| {
      WholeBatch(c, Passed(c, s, p.fetched[i], AnswerAt(p, i)), p, i + 1);
    }
  }

  /** The whole script up to the second message of conversation 0, fetched at once. */
  function ScriptPoll(capacity: nat): Poll {
    Poll(Records(capacity, capacity + 2), seq(capacity + 2, _ => ADVANCE), true, {}, {})
  }

  lemma {:induction false} ScriptExtends(capacity: nat, i: nat)
    requires capacity > 0 && i <= capacity + 2
    ensures Extended(capacity, Told(capacity, i), ScriptPoll(capacity), i, capacity + 2) == Told(capacity, capacity + 2)
    decreases capacity + 2 - i
  {
    hide Observed;
    hide Script;
    if i < capacity + 2 {
      ToldStep(capacity, i);
      assert ItemAt(ScriptPoll(capacity), i) == Item(Some(Script(capacity, i)), ADVANCE);
      ScriptExtends(capacity, i + 1);
    }
  }

  lemma {:induction false} StillHurt(capacity: nat, h: History, p: Poll, i: nat, n: nat)
    requires capacity > 0 && i <= n <= |p.fetched| && h.hurt
    ensures Extended(capacity, h, p, i, n).hurt
    decreases n - i
  {
    if i < n {
      StillHurt(capacity, Observed(capacity, h, ItemAt(p, i)), p, i + 1, n);
    }
  }

  lemma NotLandedKeepsCursor(c: Settings, s: Consumer, p: Poll)
    requires c.capacity > 0 && p.landed == {}
    ensures Polled(c, s, p).cursor == s.cursor
  {
    hide Batch;
    hide ToCommit;
    BatchKeepsMarks(c, s, p, 0);
  }

  lemma {:induction false} BatchKeepsMarks(c: Settings, s: Consumer, p: Poll, i: nat)
    requires c.capacity > 0 && i <= |p.fetched|
    ensures Batch(c, s, p, i).0.cursor == s.cursor
    decreases |p.fetched| - i
  {
    hide DispositionOf;
    hide Disposed;
    if i < |p.fetched| && i < c.limit && DispositionOf(s.window, p.fetched[i].envelope, AnswerAt(p, i)).Some? {
      BatchKeepsMarks(c, Passed(c, s, p.fetched[i], AnswerAt(p, i)), p, i + 1);
    }
  }

  /** Fetching the same records twice is faithful when the first commit did not land. */
  lemma TwiceIsFaithful(c: Settings, rs: seq<Raw>, s: Consumer, ops: seq<Op>, k: nat, p: Poll)
    requires c.capacity > 0 && Gapless(rs) && k <= |rs| && p.fetched == rs[k..] && p.landed == {}
    requires Faithful(c, map[0 := rs], s, ops) && Run(c, s, ops).cursor == map[0 := k]
    ensures Faithful(c, map[0 := rs], s, ops + [OpPoll(p)] + [OpPoll(p)])
  {
    hide Polled;
    hide InOrder;
    hide Gapless;
    hide Faithful;
    hide Run;
    assert rs[k..|rs|] == rs[k..];
    GaplessInOrder(rs, k, |rs|);
    FaithfulPoll(c, map[0 := rs], s, ops, p);
    NotLandedKeepsCursor(c, Run(c, s, ops), p);
    FaithfulPoll(c, map[0 := rs], s, ops + [OpPoll(p)], p);
  }

  lemma ScriptRefetched(c: Settings)
    requires c.capacity > 0
    ensures Refetched(c, map[0 := Records(c.capacity, c.capacity + 2)], map[0 := 0], ScriptPoll(c.capacity))
  {
    hide LogFits;
    var p, s := ScriptPoll(c.capacity), Starting(map[0 := 0]);
    GaplessFits(p.fetched);
    assert Faithful(c, map[0 := p.fetched], s, []) && Run(c, s, []) == s;
    assert p.fetched[0..] == p.fetched;
    TwiceIsFaithful(c, p.fetched, s, [], 0, p);
    assert [] + [OpPoll(p)] + [OpPoll(p)] == [OpPoll(p), OpPoll(p)];
    hide Faithful;
  }

  lemma RefetchHurts(c: Settings)
    requires c.capacity > 0 && c.limit >= c.capacity + 2
    ensures HistoryOf(c, map[0 := 0], [OpPoll(ScriptPoll(c.capacity)), OpPoll(ScriptPoll(c.capacity))]).hurt
  {
    hide Batch;
    hide HistoryOf;
    hide Polled;
    hide Observed;
    hide Told;
    hide Script;
    var p, s := ScriptPoll(c.capacity), Starting(map[0 := 0]);
    var a, b := TwicePolled(c, map[0 := 0], p);
    WholeBatch(c, s, p, 0);
    WholeBatch(c, Polled(c, s, p), p, 0);
    ToldNone(c.capacity);
    ScriptExtends(c.capacity, 0);
    ScriptHurts(c.capacity);
    ScriptStarts(c.capacity);
    StillHurt(c.capacity, Observed(c.capacity, Told(c.capacity, c.capacity + 2), ItemAt(p, 0)), p, 1, b);
  }

  lemma ScriptStarts(capacity: nat)
    requires capacity > 0
    ensures ItemAt(ScriptPoll(capacity), 0) == Item(Some(REPLAYED), ADVANCE)
  {}

  /** The conversations of the records that parse. */
  function ConversationsOf(rs: seq<Raw>): set<nat> {
    set r | r in rs && r.envelope.Some? :: r.envelope.value.conversation
  }

  /** No two records of the same conversation. */
  ghost predicate Apart(rs: seq<Raw>) {
    forall i, j :: 0 <= i < j < |rs| && rs[i].envelope.Some? && rs[j].envelope.Some? ==>
      rs[i].envelope.value.conversation != rs[j].envelope.value.conversation
  }

  lemma {:induction false} ConversationCount(rs: seq<Raw>)
    ensures |ConversationsOf(rs)| <= |rs|
  {
    if rs != [] {
      var init, r := rs[..|rs| - 1], rs[|rs| - 1];
      ConversationCount(init);
      if r.envelope.Some? {
        assert ConversationsOf(rs) <= ConversationsOf(init) + {r.envelope.value.conversation};
        SubsetCount(ConversationsOf(rs), ConversationsOf(init) + {r.envelope.value.conversation});
      } else {
        assert ConversationsOf(rs) <= ConversationsOf(init);
        SubsetCount(ConversationsOf(rs), ConversationsOf(init));
      }
    }
  }

  lemma RepeatCount(rs: seq<Raw>)
    requires !Apart(rs)
    ensures |ConversationsOf(rs)| < |rs|
  {
    var i, j :| 0 <= i < j < |rs| && rs[i].envelope.Some? && rs[j].envelope.Some?
      && rs[i].envelope.value.conversation == rs[j].envelope.value.conversation;
    var fewer := rs[..j] + rs[j + 1..];
    forall c | c in ConversationsOf(rs) ensures c in ConversationsOf(fewer) {
      var r :| r in rs && r.envelope.Some? && r.envelope.value.conversation == c;
      var k :| 0 <= k < |rs| && rs[k] == r;
      assert fewer[i] == rs[i];
      assert k < j ==> fewer[k] == r;
      assert k > j ==> fewer[k - 1] == r;
    }
    ConversationCount(fewer);
    SubsetCount(ConversationsOf(rs), ConversationsOf(fewer));
  }

  /** What the window last saw of a conversation is its only record, and nothing was hurt. */
  ghost predicate OwnRecord(h: History, rs: seq<Raw>) {
    && !h.hurt && h.conversations <= ConversationsOf(rs) && (forall e :: e in h.advanced ==> e.accepted)
    && (Apart(rs) ==> forall r :: r in rs && r.envelope.Some? && r.envelope.value.conversation in h.window.lastSeen ==>
          h.window.lastSeen[r.envelope.value.conversation]
          == Seen(r.envelope.value.sequence, r.envelope.value.messageId))
  }

  lemma OwnObserved(capacity: nat, h: History, rs: seq<Raw>, r: Raw)
    requires capacity > 0 && OwnRecord(h, rs) && r in rs
    requires Apart(rs) || !Observed(capacity, h, Item(r.envelope, ADVANCE)).hurt
    ensures OwnRecord(Observed(capacity, h, Item(r.envelope, ADVANCE)), rs)
  {}

  lemma FewNotHurt(capacity: nat, h: History, rs: seq<Raw>, r: Raw)
    requires capacity > 0 && Sound(capacity, h) && OwnRecord(h, rs) && r in rs && |ConversationsOf(rs)| <= capacity
    ensures !Observed(capacity, h, Item(r.envelope, ADVANCE)).hurt
  {
    hide Tracks;
    hide Apart;
    var h' := Observed(capacity, h, Item(r.envelope, ADVANCE));
    ObservedSound(capacity, h, Item(r.envelope, ADVANCE));
    SubsetCount(h'.conversations, ConversationsOf(rs));
  }

  lemma {:induction false} OwnExtended(capacity: nat, h: History, p: Poll, m: nat, i: nat, n: nat)
    requires capacity > 0 && i <= n <= m <= |p.fetched| && Sound(capacity, h) && OwnRecord(h, p.fetched[..m])
    requires forall k :: 0 <= k < |p.fetched| ==> AnswerAt(p, k) == ADVANCE
    requires Apart(p.fetched[..m]) || |ConversationsOf(p.fetched[..m])| <= capacity
    ensures OwnRecord(Extended(capacity, h, p, i, n), p.fetched[..m])
    decreases n - i
  {
    hide Observed;
    hide Sound;
    hide OwnRecord;
    hide Apart;
    hide ConversationsOf;
    if i < n {
      var rs := p.fetched[..m];
      assert rs[i] == p.fetched[i];
      if !Apart(rs) {
        FewNotHurt(capacity, h, rs, rs[i]);
      }
      OwnObserved(capacity, h, rs, rs[i]);
      ObservedSound(capacity, h, ItemAt(p, i));
      OwnExtended(capacity, Observed(capacity, h, ItemAt(p, i)), p, m, i + 1, n);
    }
  }

  lemma RefetchHarmless(c: Settings, start: map<nat, int>, p: Poll)
    requires 0 < c.capacity && c.limit <= c.capacity + 1
    requires forall i :: 0 <= i < |p.fetched| ==> AnswerAt(p, i) == ADVANCE
    ensures !HistoryOf(c, start, [OpPoll(p), OpPoll(p)]).hurt
  {
    hide HistoryOf;
    hide Sound;
    hide Extended;
    hide Batch;
    hide Polled;
    var a, b := TwicePolled(c, start, p);
    var m := if |p.fetched| < c.limit then |p.fetched| else c.limit;
    var rs := p.fetched[..m];
    if !Apart(rs) {
      RepeatCount(rs);
    }
    FreshSound(c.capacity);
    OwnExtended(c.capacity, FRESH, p, m, 0, a);
    ExtendedSound(c.capacity, FRESH, p, 0, a);
    OwnExtended(c.capacity, Extended(c.capacity, FRESH, p, 0, a), p, m, 0, b);
  }

  /** A batch fetched twice is harmless exactly for batch limits up to one more than the window holds. */
  lemma RefetchSafeExactly(c: Settings)
    requires c.capacity > 0
    ensures RefetchSafe(c) <==> c.limit <= c.capacity + 1
  {
    hide HistoryOf;
    hide Faithful;
    hide LogFits;
    if c.limit <= c.capacity + 1 {
      forall log, start, p | Refetched(c, log, start, p) ensures !HistoryOf(c, start, [OpPoll(p), OpPoll(p)]).hurt {
        RefetchHarmless(c, start, p);
      }
    } else {
      ScriptRefetched(c);
      RefetchHurts(c);
    }
  }

  // ---- After any run ----

  /** A history that begins with a window already in use. */
  function Anew(w: Window): History {
    History(w, {}, {}, false, false, [])
  }

  /** What two polls of the same batch observe: is a record the first advances dead-lettered by the second? */
  function Refetch(c: Settings, s: Consumer, p: Poll): History
    requires c.capacity > 0
  {
    var once := Extended(c.capacity, Anew(s.window), p, 0, Batch(c, s, p, 0).1);
    Extended(c.capacity, once, p, 0, Batch(c, Polled(c, s, p), p, 0).1)
  }

  /** After a faithful run the batch is fetched and advanced, its commit does not land, and it is fetched again. */
  ghost predicate RefetchedAfter(c: Settings, log: map<nat, seq<Raw>>, start: map<nat, int>, ops: seq<Op>, p: Poll)
    requires c.capacity > 0
  {
    && LogFits(log) && Faithful(c, log, Starting(start), ops + [OpPoll(p)] + [OpPoll(p)]) && p.landed == {}
    && (forall i :: 0 <= i < |p.fetched| ==> AnswerAt(p, i) == ADVANCE)
  }

  ghost predicate AlwaysRefetchSafe(c: Settings)
    requires c.capacity > 0
  {
    forall log, start, ops, p ::
      RefetchedAfter(c, log, start, ops, p) ==> !Refetch(c, Run(c, Starting(start), ops), p).hurt
  }

  /** The message is remembered, or its whole conversation is gone and no other record of it is in the batch. */
  ghost predicate KeptOrGone(w: Window, rs: seq<Raw>, e: Envelope) {
    || e.messageId in MessagesOf(w, e.conversation)
    || (e.conversation !in w.order
        && forall r :: r in rs && r.envelope.Some? && r.envelope.value.conversation == e.conversation ==>
             r.envelope == Some(e))
  }

  ghost predicate PairKept(capacity: nat, h: History, rs: seq<Raw>) {
    && Tracks(capacity, h.window) && !h.hurt
    && (forall e :: e in h.advanced ==> e.accepted && FromBatch(rs, e) && KeptOrGone(h.window, rs, e))
  }

  ghost predicate FromBatch(rs: seq<Raw>, e: Envelope) {
    exists r :: r in rs && r.envelope == Some(e)
  }

  lemma PairNotHurt(capacity: nat, h: History, rs: seq<Raw>, r: Raw)
    requires capacity > 0 && PairKept(capacity, h, rs)
    ensures !Observed(capacity, h, Item(r.envelope, ADVANCE)).hurt
  {
    hide FromBatch;
  }

  lemma AdvancedIsKept(capacity: nat, h: History, e: Envelope)
    requires capacity > 0 && Tracks(capacity, h.window) && RuleOf(h.window, Some(e)) == Pass
    ensures e.messageId in MessagesOf(Observed(capacity, h, Item(Some(e), ADVANCE)).window, e.conversation)
  {}

  /** A batch of two cannot evict a conversation and bring it back with another record. */
  lemma OtherKept(capacity: nat, h: History, rs: seq<Raw>, r: Raw, e: Envelope)
    requires capacity > 0 && Tracks(capacity, h.window) && |rs| <= 2 && r in rs && FromBatch(rs, e)
    requires KeptOrGone(h.window, rs, e)
    ensures KeptOrGone(Observed(capacity, h, Item(r.envelope, ADVANCE)).window, rs, e)
  {
    var item := Item(r.envelope, ADVANCE);
    var w' := Observed(capacity, h, item).window;
    if RuleOf(h.window, r.envelope) == Pass {
      var c := r.envelope.value.conversation;
      TouchedTracks(capacity, h.window, c);
      assert w'.order == Touched(capacity, h.window, c).order;
      if c == e.conversation {
        AdvancedIsKept(capacity, h, r.envelope.value);
      } else {
        OnlyTwo(rs, r, e);
      }
    }
  }

  lemma OnlyTwo(rs: seq<Raw>, r: Raw, e: Envelope)
    requires |rs| <= 2 && r in rs && FromBatch(rs, e)
    requires r.envelope.Some? && r.envelope.value.conversation != e.conversation
    ensures forall t :: t in rs && t.envelope.Some? && t.envelope.value.conversation == e.conversation ==>
      t.envelope == Some(e)
  {
    var x :| x in rs && x.envelope == Some(e);
    forall t | t in rs ensures t == r || t == x {
      var i :| 0 <= i < |rs| && rs[i] == r;
      var j :| 0 <= j < |rs| && rs[j] == x;
      assert i != j;
    }
  }

  lemma PairObserved(capacity: nat, h: History, rs: seq<Raw>, r: Raw)
    requires capacity > 0 && |rs| <= 2 && r in rs && PairKept(capacity, h, rs)
    ensures PairKept(capacity, Observed(capacity, h, Item(r.envelope, ADVANCE)), rs)
  {
    var h' := Observed(capacity, h, Item(r.envelope, ADVANCE));
    SeenTracks(capacity, h, Item(r.envelope, ADVANCE));
    PairNotHurt(capacity, h, rs, r);
    hide Tracks;
    hide KeptOrGone;
    forall e | e in h'.advanced ensures e.accepted && FromBatch(rs, e) && KeptOrGone(h'.window, rs, e) {
      if e in h.advanced {
        OtherKept(capacity, h, rs, r, e);
      } else {
        AdvancedIsKept(capacity, h, e);
        NowKept(h'.window, rs, e);
      }
    }
  }

  lemma NowKept(w: Window, rs: seq<Raw>, e: Envelope)
    requires e.messageId in MessagesOf(w, e.conversation)
    ensures KeptOrGone(w, rs, e)
  {}

  lemma {:induction false} PairExtended(capacity: nat, h: History, p: Poll, m: nat, i: nat, n: nat)
    requires capacity > 0 && i <= n <= m <= |p.fetched| && m <= 2 && PairKept(capacity, h, p.fetched[..m])
    requires forall k :: 0 <= k < |p.fetched| ==> AnswerAt(p, k) == ADVANCE
    ensures PairKept(capacity, Extended(capacity, h, p, i, n), p.fetched[..m])
    decreases n - i
  {
    hide Observed;
    hide PairKept;
    if i < n {
      assert p.fetched[..m][i] == p.fetched[i];
      PairObserved(capacity, h, p.fetched[..m], p.fetched[i]);
      PairExtended(capacity, Observed(capacity, h, ItemAt(p, i)), p, m, i + 1, n);
    }
  }

  lemma TwoHarmless(c: Settings, s: Consumer, p: Poll)
    requires 0 < c.capacity && c.limit <= 2 && Tracks(c.capacity, s.window)
    requires forall i :: 0 <= i < |p.fetched| ==> AnswerAt(p, i) == ADVANCE
    ensures !Refetch(c, s, p).hurt
  {
    hide Extended;
    hide Batch;
    hide Polled;
    hide Tracks;
    var m := if |p.fetched| < c.limit then |p.fetched| else c.limit;
    BatchWithin(c, s, p, 0);
    BatchWithin(c, Polled(c, s, p), p, 0);
    var a, b := Batch(c, s, p, 0).1, Batch(c, Polled(c, s, p), p, 0).1;
    PairExtended(c.capacity, Anew(s.window), p, m, 0, a);
    PairExtended(c.capacity, Extended(c.capacity, Anew(s.window), p, 0, a), p, m, 0, b);
  }

  const AGAIN := Envelope(3, 0, 4, true)

  /** Conversation 0 again, a conversation the full window does not hold, and conversation 0 once more. */
  function Trio(capacity: nat): seq<Raw> {
    [Raw(0, capacity, Some(AGAIN)), Raw(0, capacity + 1, Some(Envelope(1, capacity, 1, true))),
     Raw(0, capacity + 2, Some(Envelope(2, 0, 5, true)))]
  }

  function TrioPoll(capacity: nat): Poll {
    Poll(Trio(capacity), [ADVANCE, ADVANCE, ADVANCE], true, {}, {})
  }

  /** A later message of a conversation in the window advances and leaves the order alone. */
  lemma Continues(capacity: nat, h: History, e: Envelope)
    requires capacity > 0 && e.accepted && e.conversation in h.window.lastSeen
    requires e.sequence > h.window.lastSeen[e.conversation].sequence
    requires e.messageId !in MessagesOf(h.window, e.conversation)
    ensures var h' := Observed(capacity, h, Item(Some(e), ADVANCE));
      h'.advanced == h.advanced + {e} && h'.window.order == h.window.order
  {}

  lemma TrioHurts(capacity: nat, h: History)
    requires capacity > 0 && Tracks(capacity, h.window) && h.window.order == UpTo(capacity - 1)
    requires 0 in h.window.lastSeen && h.window.lastSeen[0] == Seen(3, 1) && MessagesOf(h.window, 0) == {1}
    ensures var h1 := Observed(capacity, h, Item(Some(AGAIN), ADVANCE));
      var h2 := Observed(capacity, h1, Item(Some(Envelope(1, capacity, 1, true)), ADVANCE));
      var h3 := Observed(capacity, h2, Item(Some(Envelope(2, 0, 5, true)), ADVANCE));
      Observed(capacity, h3, Item(Some(AGAIN), ADVANCE)).hurt
  {
    hide Observed;
    hide Tracks;
    var h1 := Observed(capacity, h, Item(Some(AGAIN), ADVANCE));
    Continues(capacity, h, AGAIN);
    SeenTracks(capacity, h, Item(Some(AGAIN), ADVANCE));
    NotYet(capacity);
    var h2 := Observed(capacity, h1, Item(Some(Envelope(1, capacity, 1, true)), ADVANCE));
    Joins(capacity, h1, 1, capacity, 1);
    SeenTracks(capacity, h1, Item(Some(Envelope(1, capacity, 1, true)), ADVANCE));
    assert h2.window.order == UpTo(capacity - 1)[1..] + [capacity];
    Joins(capacity, h2, 2, 0, 5);
    TakenForRegression(capacity, Observed(capacity, h2, Item(Some(Envelope(2, 0, 5, true)), ADVANCE)), AGAIN);
  }

  lemma TrioExtends(capacity: nat, h: History)
    requires capacity > 0
    ensures |TrioPoll(capacity).fetched| == 3
    ensures var h1 := Observed(capacity, h, Item(Some(AGAIN), ADVANCE));
      var h2 := Observed(capacity, h1, Item(Some(Envelope(1, capacity, 1, true)), ADVANCE));
      Extended(capacity, h, TrioPoll(capacity), 0, 3)
      == Observed(capacity, h2, Item(Some(Envelope(2, 0, 5, true)), ADVANCE))
  {
    hide Observed;
    var p := TrioPoll(capacity);
    var h1 := Observed(capacity, h, ItemAt(p, 0));
    var h2 := Observed(capacity, h1, ItemAt(p, 1));
    assert Extended(capacity, h2, p, 2, 3) == Observed(capacity, h2, ItemAt(p, 2));
    assert Extended(capacity, h1, p, 1, 3) == Extended(capacity, h2, p, 2, 3);
    assert Extended(capacity, h, p, 0, 3) == Extended(capacity, h1, p, 1, 3);
  }

  /** The window of a run that polled the first records of the script one by one. */
  lemma StageWindow(c: Settings)
    requires c.capacity > 0 && c.limit > 0
    ensures var w := Run(c, Starting(map[0 := 0]), PollsOf(c.capacity, c.capacity)).window;
      && Tracks(c.capacity, w) && w.order == UpTo(c.capacity - 1)
      && 0 in w.lastSeen && w.lastSeen[0] == Seen(3, 1) && MessagesOf(w, 0) == {1}
  {
    hide Run;
    hide HistoryOf;
    hide Told;
    hide Tracks;
    hide PollsOf;
    PollsTell(c, c.capacity);
    HistoryTold(c, map[0 := 0], PollsOf(c.capacity, c.capacity));
    ScriptFills(c.capacity, c.capacity - 1);
  }

  lemma TrioRefetched(c: Settings)
    requires c.capacity > 0 && c.limit > 0
    ensures RefetchedAfter(c, map[0 := Records(c.capacity, c.capacity) + Trio(c.capacity)], map[0 := 0],
                           PollsOf(c.capacity, c.capacity), TrioPoll(c.capacity))
  {
    hide Run;
    hide Faithful;
    hide LogFits;
    hide PollsOf;
    var rs, k := Records(c.capacity, c.capacity) + Trio(c.capacity), c.capacity;
    assert Gapless(rs);
    assert rs[..k] == Records(c.capacity, k) && rs[k..] == Trio(c.capacity);
    hide Gapless;
    GaplessFits(rs);
    PollsAreFaithful(c, rs, k);
    TwiceIsFaithful(c, rs, Starting(map[0 := 0]), PollsOf(c.capacity, k), k, TrioPoll(c.capacity));
  }

  /** A batch of three after a run that filled the window, whatever its capacity. */
  lemma TrioDeadLetters(c: Settings)
    requires c.capacity > 0 && c.limit >= 3
    ensures Refetch(c, Run(c, Starting(map[0 := 0]), PollsOf(c.capacity, c.capacity)), TrioPoll(c.capacity)).hurt
  {
    hide Run;
    hide Batch;
    hide Polled;
    hide Extended;
    hide Observed;
    hide PollsOf;
    hide Tracks;
    var s, p := Run(c, Starting(map[0 := 0]), PollsOf(c.capacity, c.capacity)), TrioPoll(c.capacity);
    WholeBatch(c, s, p, 0);
    WholeBatch(c, Polled(c, s, p), p, 0);
    StageWindow(c);
    TrioExtends(c.capacity, Anew(s.window));
    TrioHurts(c.capacity, Anew(s.window));
    var once := Extended(c.capacity, Anew(s.window), p, 0, 3);
    ExtendedFirst(c.capacity, once, p, 3);
    assert ItemAt(p, 0) == Item(Some(AGAIN), ADVANCE);
    StillHurt(c.capacity, Observed(c.capacity, once, ItemAt(p, 0)), p, 1, 3);
  }

  lemma ExtendedFirst(capacity: nat, h: History, p: Poll, n: nat)
    requires capacity > 0 && 0 < n <= |p.fetched|
    ensures Extended(capacity, h, p, 0, n) == Extended(capacity, Observed(capacity, h, ItemAt(p, 0)), p, 1, n)
  {
    hide Observed;
  }

  /** From every window a run can reach, a batch fetched twice is harmless exactly for batch limits up to two. */
  lemma AlwaysRefetchSafeExactly(c: Settings)
    requires c.capacity > 0
    ensures AlwaysRefetchSafe(c) <==> c.limit <= 2
  {
    hide Run;
    hide Faithful;
    hide LogFits;
    hide Refetch;
    if c.limit <= 2 {
      forall log, start, ops, p | RefetchedAfter(c, log, start, ops, p)
        ensures !Refetch(c, Run(c, Starting(start), ops), p).hurt
      {
        HistoryTold(c, start, ops);
        TwoHarmless(c, Run(c, Starting(start), ops), p);
      }
    } else {
      TrioRefetched(c);
      TrioDeadLetters(c);
    }
  }
}
