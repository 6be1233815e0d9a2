/**
  ReliableMessaging and the DeliveryCoordinator it owns, as the program writes
  them: fields updated in place, nested mutating loops, rows copied out of the
  store and written back.  Every method is proved to take the state exactly
  where the protocol of module Protocol says.
*/
module Messaging {
  import opened Domain
  import opened Protocol
  import opened ProtocolSafety
  import opened MessageStore
  import ProtocolAccept
  import RetryTiming
  import Recorder
  import Ledger

  /** A clock that shows any readings. */
  class Clock {
    const readings: nat -> int
    var taken: nat

    constructor (readings: nat -> int)
      ensures this.readings == readings && taken == 0
    {
      this.readings, taken := readings, 0;
    }

    method NowMs() returns (t: int)
      modifies this
      ensures t == readings(old(taken)) && taken == old(taken) + 1
    {
      t := readings(taken);
      taken := taken + 1;
    }
  }

  /** A sink that gives any answers and remembers what it was asked. */
  class DeliverySink {
    const answers: nat -> Disposition
    var log: seq<Attempt>

    constructor (answers: nat -> Disposition)
      ensures this.answers == answers && log == []
    {
      this.answers, log := answers, [];
    }

    /** The answer field of the request is filled in by the sink. */
    method Deliver(request: Attempt) returns (d: Disposition)
      modifies this
      ensures d == answers(|old(log)|) && log == old(log) + [request.(answer := d)]
    {
      d := answers(|log|);
      log := log + [request.(answer := d)];
    }
  }

  /** The metrics recorder. */
  class MetricsRecorder {
    const clock: nat -> int
    var created: int
    var pending: int
    var inflight: int
    var acked: int
    var expired: int
    var attempts: int
    var retries: int
    var tracked: map<Key, Recorder.Metric>
    var pendingByAge: set<Recorder.Aged>
    var clockReads: nat

    ghost function View(): Recorder.State
      reads this
    {
      Recorder.State(created, pending, inflight, acked, expired, attempts, retries, tracked, pendingByAge, clockReads)
    }

    constructor (clock: nat -> int)
      ensures this.clock == clock && View() == Recorder.EMPTY
    {
      this.clock := clock;
      created, pending, inflight, acked, expired, attempts, retries := 0, 0, 0, 0, 0, 0, 0;
      tracked, pendingByAge, clockReads := map[], {}, 0;
    }

    method RecordDeliveryCreated(k: Key, acceptedAt: int)
      modifies this
      ensures View() == Recorder.Created(old(View()), k, acceptedAt)
    {
      if k in tracked {
        return;
      }
      tracked := tracked[k := Recorder.Metric(Pending, acceptedAt)];
      created := created + 1;
      pending := pending + 1;
      pendingByAge := pendingByAge + {Recorder.Aged(acceptedAt, k)};
    }

    method RecordDeliveryTransition(k: Key, from: DeliveryState, to: DeliveryState)
      modifies this
      ensures View() == Recorder.Transition(clock, old(View()), k, from, to)
    {
      if k !in tracked {
        return;  // the program throws, and every caller discards the exception
      }
      if from == to {
        return;
      }
      var since := tracked[k].since;
      if from == Pending {
        pending := pending - 1;
        pendingByAge := pendingByAge - {Recorder.Aged(since, k)};
      }
      if from == InFlight {
        inflight := inflight - 1;
      }
      if from == Acknowledged {
        acked := acked - 1;
      }
      if from == Expired {
        expired := expired - 1;
      }
      if to == Pending {
        pending := pending + 1;
        since := clock(clockReads);
        clockReads := clockReads + 1;
        pendingByAge := pendingByAge + {Recorder.Aged(since, k)};
      }
      if to == InFlight {
        inflight := inflight + 1;
      }
      if to == Acknowledged {
        acked := acked + 1;
      }
      if to == Expired {
        expired := expired + 1;
      }
      tracked := tracked[k := Recorder.Metric(to, since)];
    }

    method RecordAttempt(isRetry: bool)
      modifies this
      ensures View() == Recorder.Attempted(old(View()), isRetry)
    {
      attempts := attempts + 1;
      if isRetry {
        retries := retries + 1;
      }
    }

    method RecordEviction(k: Key)
      modifies this
      ensures View() == Recorder.Evicted(old(View()), k)
    {
      if k !in tracked {
        return;
      }
      if tracked[k].state == Pending {
        pendingByAge := pendingByAge - {Recorder.Aged(tracked[k].since, k)};
      }
      tracked := tracked - {k};
    }
  }

  // ---- The local copies a claim works on ----

  /** Local copies of all the user's rows: copy k is the row at position at[k]. */
  ghost predicate Synced(ds: seq<Delivery>, at: seq<nat>, rows: seq<Delivery>, m: map<nat, Message>, user: nat) {
    && |ds| == |at|
    && (forall k :: 0 <= k < |at| ==>
          at[k] < |rows| && rows[at[k]].recipient == user && ds[k] == Filled(m, rows[at[k]]))
    && (forall k, l :: 0 <= k < l < |at| ==> at[k] < at[l])
    && (forall i :: 0 <= i < |rows| && rows[i].recipient == user ==> i in at)
  }

  /** The copies of one conversation, in order; every open copy of it is among them. */
  ghost predicate Grouped(ds: seq<Delivery>, conv: nat, group: seq<nat>) {
    && (forall g :: 0 <= g < |group| ==> group[g] < |ds| && ds[group[g]].conversation == conv)
    && (forall g, h :: 0 <= g < h < |group| ==> group[g] < group[h])
    && (forall k :: 0 <= k < |ds| && ds[k].Live() && ds[k].conversation == conv ==> k in group)
  }

  /** The open copy with the smallest sequence number, the first of them on a tie. */
  ghost predicate IsHeadCopy(ds: seq<Delivery>, group: seq<nat>, head: int) {
    && (head < 0 ==> forall g :: 0 <= g < |group| && group[g] < |ds| ==> !ds[group[g]].Live())
    && (head >= 0 ==>
          && head in group && head < |ds| && ds[head].Live()
          && forall g :: 0 <= g < |group| && group[g] < |ds| && ds[group[g]].Live() ==>
               && ds[head].sequence <= ds[group[g]].sequence
               && (group[g] < head ==> ds[head].sequence < ds[group[g]].sequence))
  }

  method FindHead(ds: seq<Delivery>, group: seq<nat>) returns (head: int)
    requires forall g :: 0 <= g < |group| ==> group[g] < |ds|
    requires forall g, h :: 0 <= g < h < |group| ==> group[g] < group[h]
    ensures IsHeadCopy(ds, group, head) && -1 <= head < |ds|
  {
    head := -1;
    var headSequence := 0;
    for i := 0 to |group|
      invariant -1 <= head < |ds| && (head >= 0 ==> headSequence == ds[head].sequence)
      invariant IsHeadCopy(ds, group[..i], head)
      invariant head >= 0 ==> exists g :: 0 <= g < i && group[g] == head
    {
      var d := ds[group[i]];
      if d.state == Acknowledged || d.state == Expired {
        continue;
      }
      if head < 0 || d.sequence < headSequence {
        head := group[i];
        headSequence := d.sequence;
      }
    }
    assert group[..|group|] == group;
  }

  /** The head among the copies is the head of the lane in the table. */
  lemma HeadCopyIsHead(w: World, user: nat, conv: nat, ds: seq<Delivery>, at: seq<nat>, group: seq<nat>, head: int)
    requires Synced(ds, at, w.rows, w.ledger.messages, user) && Grouped(ds, conv, group)
    requires IsHeadCopy(ds, group, head) && -1 <= head < |ds|
    ensures head >= 0 ==> |at| == |ds|
    ensures Head(w, user, conv) == if head < 0 then -1 else at[head]
    ensures head >= 0 ==> Candidate(w.rows[at[head]], user, conv)
  {
    var m := w.ledger.messages;
    var h := Head(w, user, conv);
    if h >= 0 {
      var k :| 0 <= k < |at| && at[k] == h;
      assert k in group;
      var g :| 0 <= g < |group| && group[g] == k;
    }
    if head >= 0 {
      var g :| 0 <= g < |group| && group[g] == head;
      assert Candidate(w.rows[at[head]], user, conv);
    }
  }

  lemma UpdatedAt(rows: seq<Delivery>, i: nat, d: Delivery)
    requires Sorted(rows) && i < |rows| && d.Id() == rows[i].Id()
    ensures Updated(rows, d) == rows[i := d] && Sorted(rows[i := d])
  {
    SortedIndex(rows, i);
  }

  lemma SyncedUpdate(ds: seq<Delivery>, at: seq<nat>, rows: seq<Delivery>, m: map<nat, Message>, user: nat, k: nat,
                     d: Delivery)
    requires Synced(ds, at, rows, m, user) && k < |ds| && d.recipient == user && d == Filled(m, d)
    ensures k < |at| && at[k] < |rows| && Synced(ds[k := d], at, rows[at[k] := d], m, user)
  {}

  lemma GroupedUpdate(ds: seq<Delivery>, conv: nat, group: seq<nat>, k: nat, d: Delivery)
    requires Grouped(ds, conv, group) && k < |ds| && d.conversation == ds[k].conversation && (d.Live() ==> ds[k].Live())
    ensures Grouped(ds[k := d], conv, group)
  {}

  /** Later copies: same conversations, and none of them open that was not open before. */
  ghost predicate Descends(ds: seq<Delivery>, copies: seq<Delivery>) {
    |ds| == |copies| && forall k :: 0 <= k < |ds| ==>
      ds[k].conversation == copies[k].conversation && (ds[k].Live() ==> copies[k].Live())
  }

  lemma DescendsSelf(ds: seq<Delivery>)
    ensures Descends(ds, ds)
  {}

  lemma DescendsUpdate(ds: seq<Delivery>, copies: seq<Delivery>, k: nat, d: Delivery)
    requires Descends(ds, copies) && k < |ds| && d.conversation == ds[k].conversation && (d.Live() ==> ds[k].Live())
    ensures Descends(ds[k := d], copies)
  {}

  lemma GroupInRange(ds: seq<Delivery>, conv: nat, group: seq<nat>)
    requires Grouped(ds, conv, group)
    ensures forall g :: 0 <= g < |group| ==> group[g] < |ds|
    ensures forall g, h :: 0 <= g < h < |group| ==> group[g] < group[h]
  {}

  lemma CopyAt(ds: seq<Delivery>, at: seq<nat>, rows: seq<Delivery>, m: map<nat, Message>, user: nat, k: nat)
    requires Synced(ds, at, rows, m, user) && k < |ds|
    ensures |at| == |ds| && at[k] < |rows| && rows[at[k]].recipient == user && ds[k] == Filled(m, rows[at[k]])
  {}

  class ReliableMessaging {
    const store: InMemoryMessageStore
    const sink: DeliverySink
    const clock: Clock
    const recorder: MetricsRecorder
    const cfg: Config
    const boot: nat
    const jitter: nat -> real
    var paused: set<Session>
    var active: map<nat, Session>
    var observed: map<nat, nat>
    var tickNexts: seq<int>
    var lastCleanup: int
    ghost var acks: set<Key>

    ghost function State(): World
      reads this, store, sink, clock, recorder
    {
      World(store.View(), store.rows, Coordinator(boot, paused, active, observed, tickNexts),
            sink.log, clock.taken, recorder.View(), lastCleanup, store.cleaned, acks)
    }

    ghost function Surroundings(): Env {
      Env(cfg, clock.readings, sink.answers, jitter, recorder.clock)
    }

    ghost predicate Valid()
      reads this, store
    {
      cfg.Valid() && store.Valid()
    }

    /** A process starting over an existing store: only volatile state is new. */
    constructor (store: InMemoryMessageStore, sink: DeliverySink, clock: Clock, recorder: MetricsRecorder,
                 cfg: Config, boot: nat, jitter: nat -> real, ghost acks: set<Key>)
      requires cfg.Valid() && store.Valid()
      ensures Valid() && this.store == store && this.sink == sink && this.clock == clock && this.recorder == recorder
      ensures this.cfg == cfg && this.boot == boot && this.jitter == jitter
      ensures State() == World(store.View(), store.rows, Fresh(boot), sink.log, clock.taken, recorder.View(), 0,
                               store.cleaned, acks)
    {
      this.store, this.sink, this.clock, this.recorder := store, sink, clock, recorder;
      this.cfg, this.boot, this.jitter, this.acks := cfg, boot, jitter, acks;
      paused, active, observed, tickNexts, lastCleanup := {}, map[], map[], [], 0;
    }

    /** The copy of an admitted row: leased and scheduled, or done at once for a legacy id. */
    method ClaimedCopy(session: Session, copy: Delivery, legacy: bool, now: int, factor: real) returns (d: Delivery)
      requires cfg.Valid()
      ensures d == Claimed(cfg, boot, session, copy, legacy, now, factor)
    {
      d := copy.(state := InFlight, leaseOwner := session, leaseBoot := boot, leaseUntil := now + cfg.leaseMs,
                 attempts := copy.attempts + 1);
      d := d.(lastSentAt := now);
      var delay := RetryTiming.RetryDelayMs(cfg, d.attempts, factor);
      d := d.(nextAttemptAt := now + delay);
      if legacy {
        d := d.(state := Acknowledged, acknowledgedAt := now);
      }
    }

    method RecordClaim(k: Key, from: DeliveryState, retry: bool, legacy: bool)
      modifies recorder
      ensures recorder.View() == ClaimCounted(recorder.clock, old(recorder.View()), k, from, retry, legacy)
    {
      hide Recorder.Transition;
      hide Recorder.Evicted;
      recorder.RecordAttempt(retry);
      recorder.RecordDeliveryTransition(k, from, InFlight);
      if legacy {
        recorder.RecordDeliveryTransition(k, InFlight, Acknowledged);
        recorder.RecordEviction(k);
      }
    }

    /** The sink admitted the copy: lease the row, write it back, schedule its retry and count it. */
    method Admit(session: Session, copy: Delivery, isLegacy: bool, now: int, factor: real, ghost i: nat)
      returns (d: Delivery)
      requires Valid() && i < |store.rows| && copy == Filled(store.messages, store.rows[i])
      modifies this`tickNexts, store, recorder
      ensures Valid() && store.View() == old(store.View()) && store.cleaned == old(store.cleaned)
      ensures d == Claimed(cfg, boot, session, copy, isLegacy, now, factor) && store.rows == old(store.rows)[i := d]
      ensures recorder.View()
        == ClaimCounted(recorder.clock, old(recorder.View()), copy.Id(), copy.state, copy.attempts + 1 > 1, isLegacy)
      ensures tickNexts == if d.state == InFlight then old(tickNexts) + [d.nextAttemptAt] else old(tickNexts)
    {
      hide ClaimCounted;
      hide RetryTiming.RetryDelay;
      hide Sorted;
      hide Updated;
      var claimedFrom := copy.state;
      d := ClaimedCopy(session, copy, isLegacy, now, factor);
      if !isLegacy {
        tickNexts := tickNexts + [d.nextAttemptAt];
      }
      UpdatedAt(store.rows, i, d);
      store.UpdateDelivery(d);
      RecordClaim(d.Id(), claimedFrom, d.attempts > 1, isLegacy);
    }

    /** One attempt: ask the sink, and only if it admits, claim the row. */
    method TryHead(session: Session, copy: Delivery, m: Message, now: int, ghost i: nat)
      returns (disposition: Disposition, d: Delivery)
      requires Valid() && i < |store.rows| && copy == Filled(store.messages, store.rows[i])
      requires copy.messageId in store.messages && m == store.messages[copy.messageId]
      modifies this`paused, this`tickNexts, store, sink, recorder
      ensures Valid() && disposition == sink.answers(|old(sink.log)|)
      ensures State() == Tried(Surroundings(), old(State()), session, i, now)
      ensures disposition == Accepted ==> d == ClaimedRow(Surroundings(), old(State()), session, i, now)
      ensures store.rows == if disposition == Accepted then old(store.rows)[i := d] else old(store.rows)
    {
      hide ClaimCounted;
      hide RetryTiming.RetryDelay;
      hide Sorted;
      d := copy;
      var request := Attempt(copy.messageId, copy.conversation, copy.sequence, m.sender, copy.recipient,
                             m.command.kind, m.command.directRecipient, m.command.groupId, m.command.content,
                             copy.attempts + 1, Closed);
      disposition := sink.Deliver(request);
      if disposition == Accepted {
        d := Admit(session, copy, IsLegacy(m.command.clientId), now, jitter(|sink.log| - 1), i);
      } else if disposition == Paused {
        paused := paused + {session};
      }
    }

    /** The loop over one conversation: attempt its head until it blocks or the sink refuses. */
    method ClaimConversation(session: Session, conv: nat, now: int, copies: seq<Delivery>, group: seq<nat>,
                             ghost at: seq<nat>)
      returns (ds: seq<Delivery>, stopped: bool)
      requires Valid() && Synced(copies, at, store.rows, store.messages, session.user) && Grouped(copies, conv, group)
      modifies this`paused, this`tickNexts, store, sink, recorder
      ensures Valid()
      ensures (State(), stopped) == Protocol.ClaimConversation(Surroundings(), old(State()), session, conv, now)
      ensures Synced(ds, at, store.rows, store.messages, session.user)
      ensures Descends(ds, copies)
    {
      hide Synced;
      hide Grouped;
      hide Descends;
      hide Tried;
      hide ClaimedRow;
      hide Sorted;
      hide Head;
      hide IsHeadCopy;
      ghost var env := Surroundings();
      ds := copies;
      DescendsSelf(ds);
      while true
        invariant Valid() && Synced(ds, at, store.rows, store.messages, session.user) && Grouped(ds, conv, group)
        invariant Descends(ds, copies)
        invariant Protocol.ClaimConversation(env, State(), session, conv, now)
               == Protocol.ClaimConversation(env, old(State()), session, conv, now)
        decreases |ClaimableIn(store.rows, session.user, conv, now)|
      {
        ghost var w := State();
        GroupInRange(ds, conv, group);
        var head := FindHead(ds, group);
        HeadCopyIsHead(w, session.user, conv, ds, at, group, head);
        if head < 0 {
          return ds, false;
        }
        CopyAt(ds, at, w.rows, store.messages, session.user, head);
        var claimable := ds[head].state == Pending || (ds[head].state == InFlight && ds[head].leaseUntil <= now);
        if !claimable {
          return ds, false;
        }
        var found := store.FindMessage(ds[head].messageId);
        if found.None? {
          return ds, false;
        }
        var disposition, d := TryHead(session, ds[head], found.value, now, at[head]);
        TriedFrame(env, w, session, at[head], now);
        if disposition == Accepted {
          TriedShrinks(env, w, session, at[head], now, conv);
          SyncedUpdate(ds, at, w.rows, store.messages, session.user, head, d);
          GroupedUpdate(ds, conv, group, head, d);
          DescendsUpdate(ds, copies, head, d);
          ds := ds[head := d];
          continue;
        }
        return ds, disposition == Paused;
      }
    }

    /** The loop over the conversations, lowest first, on the user's copies. */
    method ClaimLanes(session: Session, now: int, copies: seq<Delivery>, convs: seq<nat>,
                      byConversation: map<nat, seq<nat>>,
                      ghost at: seq<nat>)
      requires Valid() && Synced(copies, at, store.rows, store.messages, session.user)
      requires AllGrouped(copies, |copies|, convs, byConversation)
      modifies this`paused, this`tickNexts, store, sink, recorder
      ensures Valid() && State() == ClaimConversations(Surroundings(), old(State()), session, convs, now)
    {
      hide Synced;
      hide Grouped;
      hide Descends;
      hide Sorted;
      hide AllGrouped;
      hide Protocol.ClaimConversation;
      ghost var env := Surroundings();
      var ds := copies;
      DescendsSelf(ds);
      assert convs[0..] == convs;
      for c := 0 to |convs|
        invariant Valid() && Synced(ds, at, store.rows, store.messages, session.user) && Descends(ds, copies)
        invariant ClaimConversations(env, State(), session, convs[c..], now)
               == ClaimConversations(env, old(State()), session, convs, now)
      {
        GroupOf(copies, ds, convs, byConversation, c);
        assert convs[c..][0] == convs[c] && convs[c..][1..] == convs[c + 1..];
        var stopped;
        ghost var before := ds;
        ds, stopped := ClaimConversation(session, convs[c], now, ds, byConversation[convs[c]], at);
        DescendsTrans(ds, before, copies);
        if stopped {
          return;
        }
      }
    }

    method ClaimFor(session: Session)
      requires Valid()
      modifies this`paused, this`tickNexts, store, sink, clock, recorder
      ensures Valid() && State() == Protocol.ClaimFor(Surroundings(), old(State()), session)
    {
      hide Synced;
      hide Sorted;
      hide ClaimConversations;
      hide AllGrouped;
      hide OpenConversations;
      hide PositionsOf;
      hide FilledAt;
      hide ConvsOf;
      if session in paused {
        return;
      }
      var copies;
      ghost var at;
      copies, at := store.DeliveriesByRecipient(session.user);
      SyncedAtFirst(store.rows, store.messages, session.user);
      var convs, byConversation := GroupByConversation(copies);
      ConvsOfCopies(store.rows, store.messages, session.user, |store.rows|);
      var now := clock.NowMs();
      ClaimLanes(session, now, copies, convs, byConversation, at);
    }

    /** Writes a copied row back as Pending with its lease cleared. */
    method Release(copy: Delivery, ghost i: nat)
      requires Valid() && i < |store.rows| && copy.Id() == store.rows[i].Id()
      modifies store, recorder
      ensures Valid() && State() == ReleaseRow(Surroundings(), old(State()), i, copy)
    {
      hide Sorted;
      hide Updated;
      hide Recorder.Transition;
      var d := copy.(state := Pending, leaseOwner := NO_SESSION, leaseBoot := 0, leaseUntil := 0);
      UpdatedAt(store.rows, i, d);
      store.UpdateDelivery(d);
      recorder.RecordDeliveryTransition(d.Id(), InFlight, Pending);
    }

    /** The loop that takes back every lease of the user not held by this session of this process. */
    method FenceRows(session: Session)
      requires Valid()
      modifies store, recorder
      ensures Valid() && State() == FenceFrom(Surroundings(), old(State()), session, 0)
    {
      hide Sorted;
      hide ReleaseRow;
      hide PositionsOf;
      hide FenceFrom;
      ghost var env, w := Surroundings(), State();
      var copies;
      ghost var at;
      copies, at := store.DeliveriesByRecipient(session.user);
      PositionsExact(store.rows, session.user, |store.rows|);
      ghost var next := 0;
      for k := 0 to |copies|
        invariant Valid() && next <= |w.rows| == |store.rows|
        invariant next == if k == 0 then 0 else at[k - 1] + 1
        invariant store.messages == w.ledger.messages
        invariant forall i :: next <= i < |w.rows| ==> store.rows[i] == w.rows[i]
        invariant FenceFrom(env, State(), session, next) == FenceFrom(env, w, session, 0)
      {
        var d := copies[k];
        PositionsGap(w.rows, session.user, next, k);
        FenceSkip(env, State(), session, next, at[k]);
        FenceStep(env, State(), session, at[k]);
        next := at[k] + 1;
        ReleaseFrame(env, State(), at[k], d);
        if && d.state == InFlight && d.leaseOwner.user == session.user
           && !(d.leaseOwner == session && d.leaseBoot == boot) {
          Release(d, at[k]);
        }
      }
      PositionsGap(w.rows, session.user, next, |copies|);
      FenceSkip(env, State(), session, next, |w.rows|);
      FenceEnd(env, State(), session);
    }

    method ReleaseHeld(session: Session)
      requires Valid()
      modifies store, recorder
      ensures Valid() && State() == CloseFrom(Surroundings(), old(State()), session, 0)
    {
      hide Sorted;
      hide ReleaseRow;
      hide PositionsOf;
      hide CloseFrom;
      ghost var env, w := Surroundings(), State();
      var copies;
      ghost var at;
      copies, at := store.DeliveriesByRecipient(session.user);
      PositionsExact(store.rows, session.user, |store.rows|);
      ghost var next := 0;
      for k := 0 to |copies|
        invariant Valid() && next <= |w.rows| == |store.rows|
        invariant next == if k == 0 then 0 else at[k - 1] + 1
        invariant store.messages == w.ledger.messages
        invariant forall i :: next <= i < |w.rows| ==> store.rows[i] == w.rows[i]
        invariant CloseFrom(env, State(), session, next) == CloseFrom(env, w, session, 0)
      {
        var d := copies[k];
        PositionsGap(w.rows, session.user, next, k);
        CloseSkip(env, State(), session, next, at[k]);
        CloseStep(env, State(), session, at[k]);
        next := at[k] + 1;
        ReleaseFrame(env, State(), at[k], d);
        if d.state == InFlight && d.leaseOwner == session {
          Release(d, at[k]);
        }
      }
      PositionsGap(w.rows, session.user, next, |copies|);
      CloseSkip(env, State(), session, next, |w.rows|);
      FenceEnd(env, State(), session);
    }

    method SessionAvailable(session: Session)
      requires Valid()
      modifies this, store, sink, clock, recorder
      ensures Valid() && State() == Protocol.SessionAvailable(Surroundings(), old(State()), session)
    {
      hide Sorted;
      hide FenceFrom;
      hide Protocol.ClaimFor;
      if session.user in observed && session.generation < observed[session.user] {
        return;
      }
      if session.user !in observed || session.generation > observed[session.user] {
        observed := observed[session.user := session.generation];
      }
      assert observed == old(observed)[session.user := session.generation];
      FenceRows(session);
      active := active[session.user := session];
      ClaimFor(session);
    }

    method SessionClosed(session: Session)
      requires Valid()
      modifies this, store, sink, clock, recorder
      ensures Valid() && State() == Protocol.SessionClosed(Surroundings(), old(State()), session)
    {
      hide Sorted;
      hide CloseFrom;
      hide Protocol.ClaimFor;
      paused := paused - {session};
      if session.user in active && active[session.user] == session {
        active := active - {session.user};
      }
      ReleaseHeld(session);
      if session.user in active {
        ClaimFor(active[session.user]);
      }
    }

    method Resume(session: Session)
      requires Valid()
      modifies this, store, sink, clock, recorder
      ensures Valid() && State() == Protocol.Resume(Surroundings(), old(State()), session)
    {
      hide Sorted;
      hide Protocol.ClaimFor;
      if session.user !in active || active[session.user] != session {
        return;
      }
      if session.user in observed && session.generation < observed[session.user] {
        return;
      }
      paused := paused - {session};
      ClaimFor(session);
    }

    method OnAccepted(recipients: seq<nat>)
      requires Valid()
      modifies this`paused, this`tickNexts, store, sink, clock, recorder
      ensures Valid() && State() == Protocol.OnAccepted(Surroundings(), old(State()), recipients)
    {
      hide Sorted;
      hide Protocol.ClaimFor;
      ghost var env := Surroundings();
      assert recipients[0..] == recipients;
      for i := 0 to |recipients|
        invariant Valid()
        invariant Protocol.OnAccepted(env, State(), recipients[i..])
               == Protocol.OnAccepted(env, old(State()), recipients)
      {
        assert recipients[i..][0] == recipients[i] && recipients[i..][1..] == recipients[i + 1..];
        if recipients[i] in active {
          ClaimFor(active[recipients[i]]);
        }
      }
    }

    /** Writes the acknowledged copy back, lets the next message of its conversation go, and counts it. */
    method Settle(acker: Session, copy: Delivery, ghost at: nat)
      requires Valid() && at < |store.rows| && copy == Filled(store.messages, store.rows[at])
      modifies this, store, sink, clock, recorder
      ensures Valid() && var w := Protocol.ClaimFor(Surroundings(), AckRow(Surroundings(), old(State()), at), acker);
        State() == w.(recorder := Recorder.Finished(recorder.clock, w.recorder, copy.Id(), copy.state, Acknowledged))
    {
      hide Sorted;
      hide Updated;
      hide Protocol.ClaimFor;
      hide Recorder.Transition;
      hide Recorder.Evicted;
      var now := clock.NowMs();
      var mine := copy.(state := Acknowledged, acknowledgedAt := now);
      UpdatedAt(store.rows, at, mine);
      store.UpdateDelivery(mine);
      acks := acks + {mine.Id()};
      assert State() == AckRow(Surroundings(), old(State()), at);
      ClaimFor(acker);
      recorder.RecordDeliveryTransition(mine.Id(), copy.state, Acknowledged);
      recorder.RecordEviction(mine.Id());
    }

    method Acknowledge(acker: Session, messageId: nat) returns (result: AckResult)
      requires Valid()
      modifies this, store, sink, clock, recorder
      ensures Valid() && State() == Protocol.Acknowledge(Surroundings(), old(State()), acker, messageId)
      ensures result == AckResultOf(old(State()), acker, messageId)
    {
      hide Sorted;
      hide Protocol.ClaimFor;
      hide AckRow;
      hide Recorder.Finished;
      hide Known;
      hide IndexOf;
      hide RowsOf;
      hide FilledAt;
      hide CopiesOf;
      if acker.user in active && active[acker.user] != acker {
        return AckNotRecipient;
      }
      if acker.user in observed && acker.generation < observed[acker.user] {
        return AckNotRecipient;
      }
      var deliveries;
      ghost var at;
      deliveries, at := store.DeliveriesByMessage(messageId);
      KnownRows(store.rows, store.messages, messageId);
      if deliveries == [] {
        return AckNotFound;
      }
      var mine := FindOwn(deliveries, acker.user);
      OwnRow(store.rows, store.messages, messageId, acker.user, deliveries, mine);
      if mine.None? {
        return AckNotRecipient;
      }
      if mine.value.state == Acknowledged {
        return AckIdempotent;
      }
      Settle(acker, mine.value, IndexOf(store.rows, Key(messageId, acker.user)));
      result := AckAcknowledged;
    }

    /** The loop of the retry scan: due rows of online, unpaused lease holders go back to Pending. */
    method RollBackDue(due: seq<Delivery>, ghost at: seq<nat>) returns (toClaim: seq<Session>)
      requires Valid() && |due| == |at| && (forall k, l :: 0 <= k < l < |at| ==> at[k] < at[l])
      requires forall k :: 0 <= k < |at| ==> at[k] < |store.rows| && due[k] == store.rows[at[k]]
      modifies store, recorder
      ensures Valid() && State() == RollBack(Surroundings(), old(State()), at)
      ensures toClaim == Retriers(old(State()).coord, due)
    {
      hide Sorted;
      hide ReleaseRow;
      hide InsertSession;
      ghost var env, w := Surroundings(), State();
      toClaim := [];
      assert at[0..] == at;
      for i := 0 to |due|
        invariant Valid() && |store.rows| == |w.rows|
        invariant forall k :: i <= k < |at| ==> store.rows[at[k]] == due[k]
        invariant RollBack(env, State(), at[i..]) == RollBack(env, w, at)
        invariant toClaim == Retriers(w.coord, due[..i])
      {
        var d := due[i];
        assert at[i..][0] == at[i] && at[i..][1..] == at[i + 1..];
        assert due[..i + 1][..i] == due[..i];
        if d.recipient !in active || active[d.recipient] in paused || d.leaseOwner != active[d.recipient] {
          continue;
        }
        ReleaseFrame(env, State(), at[i], d);
        Release(d, at[i]);
        toClaim := InsertSession(toClaim, active[d.recipient]);
      }
      assert due[..|due|] == due;
    }

    method ClaimEach(sessions: seq<Session>)
      requires Valid()
      modifies this`paused, this`tickNexts, store, sink, clock, recorder
      ensures Valid() && State() == Protocol.ClaimEach(Surroundings(), old(State()), sessions)
    {
      hide Sorted;
      hide Protocol.ClaimFor;
      ghost var env := Surroundings();
      assert sessions[0..] == sessions;
      for i := 0 to |sessions|
        invariant Valid()
        invariant Protocol.ClaimEach(env, State(), sessions[i..]) == Protocol.ClaimEach(env, old(State()), sessions)
      {
        assert sessions[i..][0] == sessions[i] && sessions[i..][1..] == sessions[i + 1..];
        ClaimFor(sessions[i]);
      }
    }

    method RunRetryScan(now: int) returns (nexts: seq<int>)
      requires Valid()
      modifies this`paused, this`tickNexts, store, sink, clock, recorder
      ensures Valid() && State() == RetryScan(Surroundings(), old(State()), now)
      ensures nexts == tickNexts
    {
      hide Sorted;
      hide Protocol.ClaimEach;
      hide RollBack;
      hide Retriers;
      hide DueFrom;
      tickNexts := [];
      var due;
      ghost var at;
      due, at := store.DeliveriesDueForRetry(now, cfg.retryBatchLimit);
      DueInRange(store.rows, 0, now, cfg.retryBatchLimit);
      assert RowsAt(store.rows, at) == due;
      var toClaim := RollBackDue(due, at);
      ClaimEach(toClaim);
      nexts := tickNexts;
    }

    /** Expires overdue rows and tells the recorder of each. */
    method ExpireRows(now: int)
      requires Valid()
      modifies store, recorder
      ensures Valid() && State() == ExpireOverdue(Surroundings(), old(State()), now)
    {
      hide Sorted;
      hide ExpireFrom;
      hide Recorder.Transition;
      hide Recorder.Evicted;
      ghost var env := Surroundings();
      var expired := store.ExpireDeliveriesDetailed(now, cfg.retryBatchLimit);
      ghost var r := recorder.View();
      assert expired[0..] == expired;
      for i := 0 to |expired|
        modifies recorder
        invariant RecordExpiries(env, recorder.View(), expired[i..]) == RecordExpiries(env, r, expired)
      {
        assert expired[i..][0] == expired[i] && expired[i..][1..] == expired[i + 1..];
        recorder.RecordDeliveryTransition(expired[i].key, expired[i].from, Expired);
        recorder.RecordEviction(expired[i].key);
      }
    }

    method CleanRows(now: int)
      requires Valid()
      modifies this`lastCleanup, store
      ensures Valid() && State() == Cleanup(Surroundings(), old(State()), now)
    {
      hide Sorted;
      hide CleanFrom;
      if now - lastCleanup >= cfg.cleanupCycleMs {
        lastCleanup := now;
        var removed :=
          store.CleanupDeliveries(now - cfg.ackedRetentionMs, now - cfg.expiredRetentionMs, cfg.cleanupBatch);
      }
    }

    /** One scheduler tick; the in-memory store keeps whole milliseconds. */
    method RunTick() returns (wake: int)
      requires Valid()
      modifies this, store, sink, clock, recorder
      ensures Valid() && State() == Tick(Surroundings(), old(State()))
      ensures RetryTiming.IsTickWait(clock.readings(old(clock.taken)), cfg.ackTimeoutMs, 1, tickNexts, wake)
    {
      hide Sorted;
      hide ExpireOverdue;
      hide Cleanup;
      hide RetryScan;
      hide RetryTiming.IsTickWait;
      var now := clock.NowMs();
      ExpireRows(now);
      CleanRows(now);
      var nexts := RunRetryScan(now);
      wake := RetryTiming.TickWait(now, cfg.ackTimeoutMs, 1, nexts);
    }

    /** The public operation: the coordinator's step and one tick. */
    method OnSessionAvailable(session: Session)
      requires Valid()
      modifies this, store, sink, clock, recorder
      ensures Valid() && State() == Step(Surroundings(), old(State()), OpAvailable(session))
    {
      hide Sorted;
      hide Protocol.SessionAvailable;
      hide Tick;
      SessionAvailable(session);
      var wake := RunTick();
    }

    method InsertDeliveries(m: Message, recipients: seq<nat>, expiresAt: int)
      requires Valid()
      modifies store
      ensures Valid() && store.View() == old(store.View()) && store.cleaned == old(store.cleaned)
      ensures store.rows == InsertRows(old(store.rows), m, recipients, expiresAt)
    {
      hide Sorted;
      hide InsertRow;
      assert recipients[0..] == recipients;
      for i := 0 to |recipients|
        invariant Valid() && store.View() == old(store.View()) && store.cleaned == old(store.cleaned)
        invariant InsertRows(store.rows, m, recipients[i..], expiresAt)
               == InsertRows(old(store.rows), m, recipients, expiresAt)
      {
        assert recipients[i..][0] == recipients[i] && recipients[i..][1..] == recipients[i + 1..];
        var d := Delivery(m.id, m.conversation, 0, recipients[i], Pending, NO_SESSION, 0, 0, 0, 0, expiresAt, 0, 0);
        ProtocolAccept.InsertRowMembers(store.rows, d);
        store.InsertDelivery(d);
      }
    }

    method RecordDeliveriesCreated(m: Message, recipients: seq<nat>)
      modifies recorder
      ensures recorder.View() == RecordCreated(old(recorder.View()), m, recipients)
    {
      hide Recorder.Created;
      assert recipients[0..] == recipients;
      for i := 0 to |recipients|
        invariant RecordCreated(recorder.View(), m, recipients[i..])
               == RecordCreated(old(recorder.View()), m, recipients)
      {
        assert recipients[i..][0] == recipients[i] && recipients[i..][1..] == recipients[i + 1..];
        recorder.RecordDeliveryCreated(Key(m.id, recipients[i]), m.acceptedAt);
      }
    }

    /** The durable part of a first accept. */
    method EnrolMessage(sender: nat, cmd: Command) returns (m: Message)
      requires Valid()
      modifies store, clock, recorder
      ensures Valid() && State() == Enrol(Surroundings(), old(State()), sender, cmd)
      ensures m == Ledger.AcceptedMessage(old(store.View()), sender, cmd, clock.readings(old(clock.taken)))
    {
      hide RecipientsFor;
      hide Sorted;
      hide InsertRows;
      hide RecordCreated;
      hide Ledger.Joined;
      hide Ledger.ConversationOf;
      hide Ledger.Inserted;
      hide Ledger.Numbered;
      var conversation := store.GetOrCreateConversation(sender, cmd);
      var acceptedAt := clock.NowMs();
      var draft := Message(0, conversation, 0, sender, cmd, acceptedAt);
      m := store.InsertMessage(draft);
      assert m.acceptedAt == acceptedAt by {
        Stored(old(store.View()), sender, cmd, acceptedAt);
      }
      var recipients := RecipientsFor(cmd);
      var expiresAt := clock.NowMs();
      expiresAt := expiresAt + cfg.messageRetentionMs;
      InsertDeliveries(m, recipients, expiresAt);
      RecordDeliveriesCreated(m, recipients);
    }

    method Accept(sender: Session, cmd: Command) returns (outcome: AcceptOutcome)
      requires Valid()
      modifies this`paused, this`tickNexts, store, sink, clock, recorder
      ensures Valid() && State() == Protocol.Accept(Surroundings(), old(State()), sender, cmd)
      ensures outcome == AcceptOutcomeOf(Surroundings(), old(State()), sender, cmd)
    {
      hide Sorted;
      hide Protocol.OnAccepted;
      hide Enrol;
      hide Ledger.AcceptedMessage;
      var existing := store.FindAccepted(cmd.clientId, sender.user);
      if existing.Some? {
        var m := existing.value;
        if SamePayload(m.command, cmd) {
          outcome := Taken(m.id, m.conversation, m.sequence, true);
          OnAccepted(RecipientsFor(m.command));
        } else {
          outcome := IdempotencyConflict;
        }
        return;
      }
      var m := EnrolMessage(sender.user, cmd);
      OnAccepted(RecipientsFor(cmd));
      outcome := Taken(m.id, m.conversation, m.sequence, false);
    }
  }

  /** Groups the copies of open rows by conversation; the map's keys come in ascending order. */
  method GroupByConversation(copies: seq<Delivery>) returns (convs: seq<nat>, byConversation: map<nat, seq<nat>>)
    ensures convs == ConvsOf(copies, |copies|) && AllGrouped(copies, |copies|, convs, byConversation)
  {
    hide AllGrouped;
    convs, byConversation := [], map[];
    AllGroupedNone(copies);
    for i := 0 to |copies|
      invariant convs == ConvsOf(copies, i) && AllGrouped(copies, i, convs, byConversation)
    {
      var d := copies[i];
      AllGroupedNext(copies, i, convs, byConversation);
      if d.state == Acknowledged || d.state == Expired {
        continue;
      }
      convs := InsertAscending(convs, d.conversation);
      byConversation := byConversation[d.conversation :=
        (if d.conversation in byConversation then byConversation[d.conversation] else []) + [i]];
    }
  }

  lemma DescendsTrans(a: seq<Delivery>, b: seq<Delivery>, c: seq<Delivery>)
    requires Descends(a, b) && Descends(b, c)
    ensures Descends(a, c)
  {}

  lemma SyncedAtFirst(rows: seq<Delivery>, m: map<nat, Message>, user: nat)
    ensures var at := PositionsOf(rows, user, |rows|); Synced(FilledAt(m, rows, at), at, rows, m, user)
  {
    PositionsExact(rows, user, |rows|);
  }

  /** The conversations of the open copies among the first n, ascending. */
  function ConvsOf(ds: seq<Delivery>, n: nat): seq<nat>
    requires n <= |ds|
  {
    if n == 0 then []
    else if ds[n - 1].Live() then InsertAscending(ConvsOf(ds, n - 1), ds[n - 1].conversation)
    else ConvsOf(ds, n - 1)
  }

  lemma {:induction false} ConvsOfPrefix(ds: seq<Delivery>, es: seq<Delivery>, n: nat)
    requires n <= |ds| <= |es| && ds == es[..|ds|]
    ensures ConvsOf(ds, n) == ConvsOf(es, n)
  {
    if n > 0 {
      ConvsOfPrefix(ds, es, n - 1);
    }
  }

  lemma ConvsOfAppend(ds: seq<Delivery>, d: Delivery)
    ensures ConvsOf(ds + [d], |ds| + 1)
      == if d.Live() then InsertAscending(ConvsOf(ds, |ds|), d.conversation) else ConvsOf(ds, |ds|)
  {
    ConvsOfPrefix(ds, ds + [d], |ds|);
  }

  /** The copies' conversations are those of the user's open rows in the table. */
  lemma {:induction false} ConvsOfCopies(rows: seq<Delivery>, m: map<nat, Message>, user: nat, n: nat)
    requires n <= |rows|
    ensures var ds := FilledAt(m, rows, PositionsOf(rows, user, n));
      ConvsOf(ds, |ds|) == OpenConversations(rows, user, n)
  {
    hide InsertAscending;
    if n > 0 {
      ConvsOfCopies(rows, m, user, n - 1);
      if rows[n - 1].recipient == user {
        var before := FilledAt(m, rows, PositionsOf(rows, user, n - 1));
        var ds := FilledAt(m, rows, PositionsOf(rows, user, n));
        assert ds == before + [Filled(m, rows[n - 1])];
        ConvsOfAppend(before, Filled(m, rows[n - 1]));
      }
    }
  }

  /** Positions below n, ascending, of copies of conversation c. */
  ghost predicate ListOf(ds: seq<Delivery>, n: nat, c: nat, list: seq<nat>)
    requires n <= |ds|
  {
    && (forall g :: 0 <= g < |list| ==> list[g] < n && ds[list[g]].conversation == c)
    && (forall g, h :: 0 <= g < h < |list| ==> list[g] < list[h])
  }

  /** The first n copies, grouped: each open one is listed under its conversation, in order. */
  ghost predicate AllGrouped(ds: seq<Delivery>, n: nat, convs: seq<nat>, lists: map<nat, seq<nat>>) {
    && n <= |ds|
    && (forall c :: c in lists ==> ListOf(ds, n, c, lists[c]))
    && (forall k :: 0 <= k < n && ds[k].Live() ==> ds[k].conversation in lists && k in lists[ds[k].conversation])
    && (forall c :: c in convs ==> c in lists)
  }

  lemma ListGrows(ds: seq<Delivery>, n: nat, c: nat, list: seq<nat>)
    requires n < |ds| && ListOf(ds, n, c, list)
    ensures ListOf(ds, n + 1, c, list)
    ensures ds[n].conversation == c ==> ListOf(ds, n + 1, c, list + [n])
  {}

  lemma AllGroupedNone(ds: seq<Delivery>)
    ensures AllGrouped(ds, 0, [], map[])
  {}

  lemma InsertAscendingMembers(s: seq<nat>, x: nat)
    ensures forall y :: y in InsertAscending(s, x) ==> y == x || y in s
  {}

  lemma AllGroupedNext(ds: seq<Delivery>, n: nat, convs: seq<nat>, lists: map<nat, seq<nat>>)
    requires AllGrouped(ds, n, convs, lists) && n < |ds|
    ensures !ds[n].Live() ==> AllGrouped(ds, n + 1, convs, lists)
    ensures ds[n].Live() ==>
      var c := ds[n].conversation;
      AllGrouped(ds, n + 1, InsertAscending(convs, c), lists[c := (if c in lists then lists[c] else []) + [n]])
  {
    hide ListOf;
    var c := ds[n].conversation;
    InsertAscendingMembers(convs, c);
    forall q | q in lists ensures ListOf(ds, n + 1, q, lists[q]) {
      ListGrows(ds, n, q, lists[q]);
    }
    var group := (if c in lists then lists[c] else []) + [n];
    EmptyList(ds, n, c);
    ListGrows(ds, n, c, if c in lists then lists[c] else []);
    assert forall k :: k in group <==> k == n || (c in lists && k in lists[c]);
  }

  lemma EmptyList(ds: seq<Delivery>, n: nat, c: nat)
    requires n <= |ds|
    ensures ListOf(ds, n, c, [])
  {}

  lemma GroupOf(copies: seq<Delivery>, ds: seq<Delivery>, convs: seq<nat>, lists: map<nat, seq<nat>>, c: nat)
    requires AllGrouped(copies, |copies|, convs, lists) && Descends(ds, copies) && c < |convs|
    ensures convs[c] in lists && Grouped(ds, convs[c], lists[convs[c]])
  {}

  /** Between consecutive positions the table has no row of the user. */
  lemma PositionsGap(rows: seq<Delivery>, user: nat, next: nat, k: nat)
    requires var at := PositionsOf(rows, user, |rows|); k <= |at| && next == if k == 0 then 0 else at[k - 1] + 1
    ensures var at := PositionsOf(rows, user, |rows|);
      var stop := if k < |at| then at[k] else |rows|;
      next <= stop && forall i :: next <= i < stop ==> rows[i].recipient != user
  {
    PositionsExact(rows, user, |rows|);
    var at := PositionsOf(rows, user, |rows|);
    var stop := if k < |at| then at[k] else |rows|;
    forall q | 0 <= q < |at| ensures at[q] < next || stop <= at[q] {
      assert q < k ==> at[q] <= at[k - 1];
    }
  }

  lemma FenceStep(env: Env, w: World, session: Session, i: nat)
    requires i < |w.rows| && w.rows[i].recipient == session.user
    ensures var d := Filled(w.ledger.messages, w.rows[i]);
      FenceFrom(env, w, session, i)
      == if && d.state == InFlight && d.leaseOwner.user == session.user
            && !(d.leaseOwner == session && d.leaseBoot == w.coord.boot)
         then FenceFrom(env, ReleaseRow(env, w, i, d), session, i + 1) else FenceFrom(env, w, session, i + 1)
  {}

  lemma CloseStep(env: Env, w: World, session: Session, i: nat)
    requires i < |w.rows| && w.rows[i].recipient == session.user
    ensures var d := Filled(w.ledger.messages, w.rows[i]);
      CloseFrom(env, w, session, i)
      == if d.state == InFlight && d.leaseOwner == session
         then CloseFrom(env, ReleaseRow(env, w, i, d), session, i + 1) else CloseFrom(env, w, session, i + 1)
  {}

  lemma FenceEnd(env: Env, w: World, session: Session)
    ensures FenceFrom(env, w, session, |w.rows|) == w && CloseFrom(env, w, session, |w.rows|) == w
  {}

  lemma {:induction false} FenceSkip(env: Env, w: World, session: Session, i: nat, j: nat)
    requires i <= j <= |w.rows| && forall q :: i <= q < j ==> w.rows[q].recipient != session.user
    ensures FenceFrom(env, w, session, i) == FenceFrom(env, w, session, j)
    decreases j - i
  {
    if i < j {
      FenceSkip(env, w, session, i + 1, j);
    }
  }

  lemma {:induction false} CloseSkip(env: Env, w: World, session: Session, i: nat, j: nat)
    requires i <= j <= |w.rows| && forall q :: i <= q < j ==> w.rows[q].recipient != session.user
    ensures CloseFrom(env, w, session, i) == CloseFrom(env, w, session, j)
    decreases j - i
  {
    if i < j {
      CloseSkip(env, w, session, i + 1, j);
    }
  }

  lemma ReleaseFrame(env: Env, w: World, i: nat, d: Delivery)
    requires i < |w.rows|
    ensures var w' := ReleaseRow(env, w, i, d);
      && w'.ledger == w.ledger && |w'.rows| == |w.rows|
      && forall j :: 0 <= j < |w.rows| && j != i ==> w'.rows[j] == w.rows[j]
  {}

  /** The first of the copies that belongs to the user. */
  method FindOwn(ds: seq<Delivery>, user: nat) returns (own: Option<Delivery>)
    ensures own.None? ==> forall d :: d in ds ==> d.recipient != user
    ensures own.Some? ==> own.value in ds && own.value.recipient == user
  {
    for i := 0 to |ds|
      invariant forall j :: 0 <= j < i ==> ds[j].recipient != user
    {
      if ds[i].recipient == user {
        return Some(ds[i]);
      }
    }
    own := None;
  }

  /** Copies of exactly the rows of one message. */
  ghost predicate CopiesOf(rows: seq<Delivery>, m: map<nat, Message>, id: nat, ds: seq<Delivery>) {
    forall d :: d in ds <==> exists i :: 0 <= i < |rows| && rows[i].messageId == id && d == Filled(m, rows[i])
  }

  lemma KnownRows(rows: seq<Delivery>, m: map<nat, Message>, id: nat)
    ensures var ds := FilledAt(m, rows, RowsOf(rows, id, |rows|));
      (ds == [] <==> !Known(rows, id)) && CopiesOf(rows, m, id, ds)
  {
    RowsExact(rows, id, |rows|);
    hide RowsOf;
    var at := RowsOf(rows, id, |rows|);
    var ds := FilledAt(m, rows, at);
    forall i | 0 <= i < |rows| && rows[i].messageId == id ensures Filled(m, rows[i]) in ds {
      var k :| 0 <= k < |at| && at[k] == i;
      assert ds[k] == Filled(m, rows[i]);
    }
    forall d | d in ds ensures exists i :: 0 <= i < |rows| && rows[i].messageId == id && d == Filled(m, rows[i]) {
      var k :| 0 <= k < |ds| && ds[k] == d;
      assert rows[at[k]].messageId == id;
    }
    assert ds != [] ==> rows[at[0]].messageId == id;
  }

  /** Among the copies of a message's rows, the user's own is the row under that key. */
  lemma OwnRow(rows: seq<Delivery>, m: map<nat, Message>, id: nat, user: nat, ds: seq<Delivery>, own: Option<Delivery>)
    requires Sorted(rows) && CopiesOf(rows, m, id, ds)
    requires own.None? ==> forall d :: d in ds ==> d.recipient != user
    requires own.Some? ==> own.value in ds && own.value.recipient == user
    ensures var i := IndexOf(rows, Key(id, user));
      (own.None? <==> i < 0) && (own.Some? ==> own.value == Filled(m, rows[i]))
  {
    var i := IndexOf(rows, Key(id, user));
    assert i >= 0 ==> Filled(m, rows[i]) in ds;
    if own.Some? {
      var at :| 0 <= at < |rows| && rows[at].messageId == id && own.value == Filled(m, rows[at]);
      SortedIndex(rows, at);
    }
  }

  lemma Stored(l: Ledger.Ledger, sender: nat, cmd: Command, acceptedAt: int)
    ensures Ledger.AcceptedMessage(l, sender, cmd, acceptedAt).acceptedAt == acceptedAt
  {}

  lemma TriedFrame(env: Env, w: World, session: Session, i: nat, now: int)
    requires i < |w.rows| && w.rows[i].messageId in w.ledger.messages
    ensures Tried(env, w, session, i, now).ledger == w.ledger
    ensures var d := ClaimedRow(env, w, session, i, now);
      && d.recipient == w.rows[i].recipient && d.conversation == w.rows[i].conversation
      && d.messageId == w.rows[i].messageId
      && d == Filled(w.ledger.messages, d)
  {}
}
