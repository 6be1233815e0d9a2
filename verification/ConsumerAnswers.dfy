/**
  What a poll of the Kafka consumer answers, record by record, what becomes of
  each record, and what the poll commits.
*/
module ConsumerAnswers {
  import opened Domain
  import opened EventConsumer

  /** The consumer after the first k records of a poll. */
  function After(c: Settings, s: Consumer, p: Poll, k: nat): Consumer
    requires c.capacity > 0 && k <= |p.fetched|
    decreases k
  {
    if k == 0 then s
    else
      var before := After(c, s, p, k - 1);
      if DispositionOf(before.window, p.fetched[k - 1].envelope, AnswerAt(p, k - 1)).None? then before
      else Passed(c, before, p.fetched[k - 1], AnswerAt(p, k - 1))
  }

  /** The window holds the record's message as one already disposed of. */
  predicate Remembered(w: Window, e: Option<Envelope>) {
    && e.Some? && e.value.accepted
    && e.value.conversation in w.seenMessages && e.value.messageId in w.seenMessages[e.value.conversation]
  }

  /** Behind the last position of its conversation, or another message at that position. */
  predicate OutOfLine(w: Window, e: Envelope) {
    && e.conversation in w.lastSeen
    && var last := w.lastSeen[e.conversation];
       e.sequence < last.sequence || (e.sequence == last.sequence && e.messageId != last.messageId)
  }

  /** A record no handler sees: not parsed, of an unknown type, or out of line. */
  predicate Unfit(w: Window, e: Option<Envelope>) {
    e.None? || !e.value.accepted || (!Remembered(w, e) && OutOfLine(w, e.value))
  }

  lemma DispositionExactly(w: Window, e: Option<Envelope>, a: Answer)
    ensures DispositionOf(w, e, a)
         == if Unfit(w, e) then (if a.stored then Some(DeadLettered) else None)
            else if Remembered(w, e) then Some(DuplicateNoOp)
            else a.handled
  {}

  lemma PassedExactly(c: Settings, s: Consumer, raw: Raw, a: Answer)
    requires c.capacity > 0 && DispositionOf(s.window, raw.envelope, a).Some?
    ensures var s', d := Passed(c, s, raw, a), DispositionOf(s.window, raw.envelope, a).value;
      && s'.dead == s.dead + (if d == DeadLettered then {raw} else {})
      && s'.repeats == s.repeats + (if Remembered(s.window, raw.envelope) then {raw} else {})
      && s'.handled == s.handled + (if d != DeadLettered && !Remembered(s.window, raw.envelope) then {raw} else {})
  {}

  /** The batch from record i on, after the first i records, is the rest of the batch. */
  lemma {:induction false} BatchAfter(c: Settings, s: Consumer, p: Poll, i: nat)
    requires c.capacity > 0 && i <= Batch(c, s, p, 0).1
    ensures Batch(c, After(c, s, p, i), p, i) == Batch(c, s, p, 0)
    ensures i <= |Dispositions(c, s, p, 0)|
    ensures Dispositions(c, After(c, s, p, i), p, i) == Dispositions(c, s, p, 0)[i..]
    decreases i
  {
    hide Passed;
    hide DispositionOf;
    if i > 0 {
      BatchAfter(c, s, p, i - 1);
      BatchGoesOn(c, After(c, s, p, i - 1), p, i - 1);
    }
  }

  lemma BatchGoesOn(c: Settings, s: Consumer, p: Poll, i: nat)
    requires c.capacity > 0 && i < |p.fetched| && i < Batch(c, s, p, i).1
    ensures var d := DispositionOf(s.window, p.fetched[i].envelope, AnswerAt(p, i));
      && d.Some? && Batch(c, s, p, i) == Batch(c, Passed(c, s, p.fetched[i], AnswerAt(p, i)), p, i + 1)
      && Dispositions(c, s, p, i)
         == [d.value] + Dispositions(c, Passed(c, s, p.fetched[i], AnswerAt(p, i)), p, i + 1)
  {
    hide Passed;
    hide DispositionOf;
  }

  /**
    Entry k of what a poll answers is the pipeline's verdict on record k at the
    window the records before it lead to: dead-lettered if unfit, a repeat if its
    message is remembered, and otherwise the handler's own answer.
  */
  lemma AnswersExactly(c: Settings, s: Consumer, p: Poll, k: nat)
    requires c.capacity > 0 && k < |Dispositions(c, s, p, 0)|
    ensures |Dispositions(c, s, p, 0)| == Batch(c, s, p, 0).1
    ensures var d, w, e := Dispositions(c, s, p, 0)[k], After(c, s, p, k).window, p.fetched[k].envelope;
      && (Unfit(w, e) ==> d == DeadLettered && AnswerAt(p, k).stored)
      && (Remembered(w, e) ==> d == DuplicateNoOp)
      && (!Unfit(w, e) && !Remembered(w, e) ==> AnswerAt(p, k).handled == Some(d))
  {
    hide Passed;
    DispositionsLength(c, s, p, 0);
    BatchAfter(c, s, p, k);
    BatchGoesOn(c, After(c, s, p, k), p, k);
    DispositionExactly(After(c, s, p, k).window, p.fetched[k].envelope, AnswerAt(p, k));
    hide DispositionOf;
    hide Dispositions;
    assert Dispositions(c, s, p, 0)[k..][0] == Dispositions(c, s, p, 0)[k];
  }

  lemma {:induction false} DispositionsLength(c: Settings, s: Consumer, p: Poll, i: nat)
    requires c.capacity > 0 && i <= |p.fetched|
    ensures i + |Dispositions(c, s, p, i)| == Batch(c, s, p, i).1
    decreases |p.fetched| - i
  {
    hide Passed;
    hide DispositionOf;
    if i < |p.fetched| && i < c.limit && DispositionOf(s.window, p.fetched[i].envelope, AnswerAt(p, i)).Some? {
      DispositionsLength(c, Passed(c, s, p.fetched[i], AnswerAt(p, i)), p, i + 1);
    }
  }

  /** A batch stops short of its limit exactly at a record whose dead letter is not stored or whose handler throws. */
  lemma AbortsExactly(c: Settings, s: Consumer, p: Poll)
    requires c.capacity > 0
    ensures var (s', n, aborted) := Batch(c, s, p, 0);
      && s' == After(c, s, p, n)
      && (!aborted <==> n == |p.fetched| || n >= c.limit)
      && (aborted ==>
            var w, e, a := s'.window, p.fetched[n].envelope, AnswerAt(p, n);
            !Remembered(w, e) && if Unfit(w, e) then !a.stored else a.handled.None?)
  {
    hide Passed;
    var n := Batch(c, s, p, 0).1;
    BatchAfter(c, s, p, n);
    BatchStops(c, After(c, s, p, n), p, n);
    if n < |p.fetched| {
      DispositionExactly(After(c, s, p, n).window, p.fetched[n].envelope, AnswerAt(p, n));
    }
  }

  lemma BatchStops(c: Settings, s: Consumer, p: Poll, i: nat)
    requires c.capacity > 0 && i <= |p.fetched| && Batch(c, s, p, i).1 == i
    ensures Batch(c, s, p, i).0 == s
    ensures !Batch(c, s, p, i).2 <==> i == |p.fetched| || i >= c.limit
    ensures Batch(c, s, p, i).2 ==> DispositionOf(s.window, p.fetched[i].envelope, AnswerAt(p, i)).None?
  {
    hide Passed;
    hide DispositionOf;
  }

  /** Record r was answered so within the first n. */
  ghost predicate DeadIn(c: Settings, s: Consumer, p: Poll, n: nat, r: Raw)
    requires c.capacity > 0 && n <= |Dispositions(c, s, p, 0)| && n <= |p.fetched|
  {
    exists k :: 0 <= k < n && p.fetched[k] == r && Dispositions(c, s, p, 0)[k] == DeadLettered
  }

  ghost predicate RepeatIn(c: Settings, s: Consumer, p: Poll, n: nat, r: Raw)
    requires c.capacity > 0 && n <= |p.fetched|
  {
    exists k :: 0 <= k < n && p.fetched[k] == r && Remembered(After(c, s, p, k).window, r.envelope)
  }

  ghost predicate HandledIn(c: Settings, s: Consumer, p: Poll, n: nat, r: Raw)
    requires c.capacity > 0 && n <= |Dispositions(c, s, p, 0)| && n <= |p.fetched|
  {
    exists k :: 0 <= k < n && p.fetched[k] == r && Dispositions(c, s, p, 0)[k] != DeadLettered
      && !Remembered(After(c, s, p, k).window, r.envelope)
  }

  lemma {:induction false} SortedUpTo(c: Settings, s: Consumer, p: Poll, n: nat, r: Raw)
    requires c.capacity > 0 && n <= |p.fetched| && n <= |Dispositions(c, s, p, 0)|
    ensures var s' := After(c, s, p, n);
      && (r in s'.dead <==> r in s.dead || DeadIn(c, s, p, n, r))
      && (r in s'.repeats <==> r in s.repeats || RepeatIn(c, s, p, n, r))
      && (r in s'.handled <==> r in s.handled || HandledIn(c, s, p, n, r))
    decreases n
  {
    hide Passed;
    hide DispositionOf;
    hide Dispositions;
    hide Batch;
    if n > 0 {
      SortedUpTo(c, s, p, n - 1, r);
      var before, raw, a := After(c, s, p, n - 1), p.fetched[n - 1], AnswerAt(p, n - 1);
      EntryIs(c, s, p, n - 1);
      PassedExactly(c, before, raw, a);
      EntryMore(c, s, p, n, r);
    }
  }

  lemma EntryMore(c: Settings, s: Consumer, p: Poll, n: nat, r: Raw)
    requires c.capacity > 0 && 0 < n <= |p.fetched| && n <= |Dispositions(c, s, p, 0)|
    ensures var d, w := Dispositions(c, s, p, 0)[n - 1], After(c, s, p, n - 1).window;
      var now := p.fetched[n - 1] == r;
      && (DeadIn(c, s, p, n, r) <==> DeadIn(c, s, p, n - 1, r) || (now && d == DeadLettered))
      && (RepeatIn(c, s, p, n, r) <==> RepeatIn(c, s, p, n - 1, r) || (now && Remembered(w, r.envelope)))
      && (HandledIn(c, s, p, n, r) <==>
            HandledIn(c, s, p, n - 1, r) || (now && d != DeadLettered && !Remembered(w, r.envelope)))
  {
    hide After;
    hide Dispositions;
    hide Remembered;
  }

  lemma EntryIs(c: Settings, s: Consumer, p: Poll, k: nat)
    requires c.capacity > 0 && k < |Dispositions(c, s, p, 0)|
    ensures k < |p.fetched|
    ensures DispositionOf(After(c, s, p, k).window, p.fetched[k].envelope, AnswerAt(p, k))
         == Some(Dispositions(c, s, p, 0)[k])
  {
    hide Passed;
    hide DispositionOf;
    DispositionsLength(c, s, p, 0);
    BatchAfter(c, s, p, k);
    BatchGoesOn(c, After(c, s, p, k), p, k);
    hide Dispositions;
    assert Dispositions(c, s, p, 0)[k..][0] == Dispositions(c, s, p, 0)[k];
  }

  /** What a poll has the handler take, dead-letters and passes over is exactly what it answers so. */
  lemma RecordsSorted(c: Settings, s: Consumer, p: Poll, r: Raw)
    requires c.capacity > 0
    ensures var s', n := Polled(c, s, p), |Dispositions(c, s, p, 0)|;
      && n <= |p.fetched|
      && (r in s'.dead <==> r in s.dead || DeadIn(c, s, p, n, r))
      && (r in s'.repeats <==> r in s.repeats || RepeatIn(c, s, p, n, r))
      && (r in s'.handled <==> r in s.handled || HandledIn(c, s, p, n, r))
  {
    hide Dispositions;
    hide Batch;
    hide After;
    DispositionsLength(c, s, p, 0);
    AbortsExactly(c, s, p);
    SortedUpTo(c, s, p, |Dispositions(c, s, p, 0)|, r);
  }

  // ---- Commits ----

  lemma {:induction false} CommitExactly(rs: seq<Raw>, q: nat)
    ensures q in ToCommit(rs) <==> exists i :: 0 <= i < |rs| && rs[i].partition == q
    ensures q in ToCommit(rs) ==> forall i :: 0 <= i < |rs| && rs[i].partition == q ==> rs[i].offset < ToCommit(rs)[q]
  {
    if rs != [] {
      var init, last := rs[..|rs| - 1], rs[|rs| - 1];
      CommitExactly(init, q);
      assert forall i :: 0 <= i < |init| ==> rs[i] == init[i];
      if q in ToCommit(init) {
        var i :| 0 <= i < |init| && init[i].partition == q;
        assert rs[i].partition == q;
      }
    }
  }

  /** One past the largest offset of the partition among the records. */
  ghost predicate JustPast(rs: seq<Raw>, q: nat, mark: int) {
    && (forall r :: r in rs && r.partition == q ==> r.offset < mark)
    && exists r :: r in rs && r.partition == q && r.offset + 1 == mark
  }

  /**
    A poll commits if and only if it was not aborted, disposed of something and its
    hook returned; then the broker's mark of every partition it read and reached
    moves to just past the last record disposed of, the consumer's follows if it
    hears of it, and no other mark moves.
  */
  lemma PollCommits(c: Settings, s: Consumer, p: Poll, q: nat)
    requires c.capacity > 0
    ensures var s' := Polled(c, s, p); var (_, n, aborted) := Batch(c, s, p, 0);
      var done := p.fetched[..n];
      var reached := !aborted && n > 0 && p.hookReturns && q in p.landed && exists r :: r in done && r.partition == q;
      && (reached ==> q in s'.committed && JustPast(done, q, s'.committed[q]))
      && (!reached ==> (q in s'.committed <==> q in s.committed)
                       && (q in s.committed ==> s'.committed[q] == s.committed[q]))
      && (reached && q in p.heard ==> q in s'.cursor && s'.cursor[q] == s'.committed[q])
      && (!(reached && q in p.heard) ==> (q in s'.cursor <==> q in s.cursor)
                                         && (q in s.cursor ==> s'.cursor[q] == s.cursor[q]))
  {
    hide Batch;
    var (s1, n, aborted) := Batch(c, s, p, 0);
    var done := p.fetched[..n];
    MarksKept(c, s, p, 0);
    CommitExactly(done, q);
    if q in ToCommit(done) {
      CommitFromRecord(done, q);
      var i :| 0 <= i < |done| && done[i].partition == q && ToCommit(done)[q] == done[i].offset + 1;
      assert done[i] in done;
      assert JustPast(done, q, ToCommit(done)[q]);
    } else {
      assert forall r :: r in done ==> r.partition != q;
    }
    hide ToCommit;
  }

  lemma {:induction false} MarksKept(c: Settings, s: Consumer, p: Poll, i: nat)
    requires c.capacity > 0 && i <= |p.fetched|
    ensures Batch(c, s, p, i).0.cursor == s.cursor && Batch(c, s, p, i).0.committed == s.committed
    decreases |p.fetched| - i
  {
    hide DispositionOf;
    hide Disposed;
    if i < |p.fetched| && i < c.limit && DispositionOf(s.window, p.fetched[i].envelope, AnswerAt(p, i)).Some? {
      MarksKept(c, Passed(c, s, p.fetched[i], AnswerAt(p, i)), p, i + 1);
    }
  }
}
