/** One relay as the program writes it, over the in-memory store. */
module LocalOutboxRelay {
  import opened Domain
  import opened MessageStore
  import OutboxRelay

  /**
    The events after the first n requests, each marked at its own clock reading if
    its publish was ok and the store did not fail on the mark.
  */
  function MarkedUpTo(es: seq<OutboxEvent>, requests: seq<nat>, ok: seq<bool>, times: nat -> int, stored: nat -> bool,
                      n: nat): seq<OutboxEvent>
    requires n <= |requests| == |ok|
  {
    if n == 0 then es
    else
      var before := MarkedUpTo(es, requests, ok, times, stored, n - 1);
      if ok[n - 1] && stored(n - 1) then OutboxRelay.Processed(before, requests[n - 1], times(n - 1)) else before
  }

  function MarkActions(r: nat, times: nat -> int, stored: nat -> bool, n: nat): seq<OutboxRelay.Action> {
    if n == 0 then []
    else MarkActions(r, times, stored, n - 1) + [OutboxRelay.Mark(r, times(n - 1), stored(n - 1))]
  }

  /** Positive clock readings that never run backwards. */
  ghost predicate Forward(times: nat -> int, start: int) {
    forall i: nat, j: nat :: i <= j ==> start <= times(i) <= times(j) && 0 < times(i)
  }

  lemma ForwardAt(times: nat -> int, start: int, i: nat, j: nat)
    requires Forward(times, start) && i <= j
    ensures start <= times(i) <= times(j) && 0 < times(j)
  {}

  lemma MarkStep(setup: OutboxRelay.Setup, s: OutboxRelay.State, r: nat, requests: seq<nat>, ok: seq<bool>, i: nat,
                 now: int, stored: bool)
    requires OutboxRelay.StageOf(s, r) == OutboxRelay.Marking(requests, ok, i) && i < |requests| == |ok|
    requires s.time <= now && 0 < now
    ensures var s' := OutboxRelay.Next(setup, s, OutboxRelay.Mark(r, now, stored));
      && s'.events == (if ok[i] && stored then OutboxRelay.Processed(s.events, requests[i], now) else s.events)
      && OutboxRelay.StageOf(s', r) == OutboxRelay.Marking(requests, ok, i + 1) && s'.time == now
  {}

  /** The marking loop is the relay's mark steps, one for each request. */
  lemma {:induction false} MarkingIsSteps(setup: OutboxRelay.Setup, s: OutboxRelay.State, r: nat, requests: seq<nat>,
                                          ok: seq<bool>, times: nat -> int, stored: nat -> bool, n: nat)
    requires OutboxRelay.StageOf(s, r) == OutboxRelay.Marking(requests, ok, 0) && n <= |requests| == |ok|
    requires Forward(times, s.time)
    ensures var s' := OutboxRelay.Run(setup, s, MarkActions(r, times, stored, n));
      && s'.events == MarkedUpTo(s.events, requests, ok, times, stored, n)
      && OutboxRelay.StageOf(s', r) == OutboxRelay.Marking(requests, ok, n)
      && s'.time == if n == 0 then s.time else times(n - 1)
  {
    hide Forward;
    hide OutboxRelay.Next;
    if n > 0 {
      MarkingIsSteps(setup, s, r, requests, ok, times, stored, n - 1);
      var before := MarkActions(r, times, stored, n - 1);
      var all := MarkActions(r, times, stored, n);
      assert all[..|all| - 1] == before;
      assert all[|all| - 1] == OutboxRelay.Mark(r, times(n - 1), stored(n - 1));
      ForwardAt(times, s.time, if n == 1 then 0 else n - 2, n - 1);
      MarkStep(setup, OutboxRelay.Run(setup, s, before), r, requests, ok, n - 1, times(n - 1), stored(n - 1));
    }
  }

  /**
    Marking, event by event: a request is processed at its own clock reading and
    free of its lease exactly if its publish was ok and the store took the mark;
    every other event stays as it was.
  */
  lemma {:induction false} MarkedExactly(es: seq<OutboxEvent>, requests: seq<nat>, ok: seq<bool>, times: nat -> int,
                                         stored: nat -> bool, n: nat, e: nat)
    requires n <= |requests| == |ok| && e < |es|
    requires forall k, m :: 0 <= k < m < |requests| ==> requests[k] != requests[m]
    ensures var es' := MarkedUpTo(es, requests, ok, times, stored, n);
      && |es'| == |es| && (e !in requests[..n] ==> es'[e] == es[e])
      && forall k :: 0 <= k < n && requests[k] == e ==>
           es'[e] == if ok[k] && stored(k) then es[e].(processedAt := times(k), leaseOwner := "", leaseUntil := 0)
                     else es[e]
  {
    if n > 0 {
      MarkedExactly(es, requests, ok, times, stored, n - 1, e);
      assert requests[..n] == requests[..n - 1] + [requests[n - 1]];
      if requests[n - 1] == e {
        assert e !in requests[..n - 1];
      }
    }
  }

  /** An event's message is there and loading it does not fail. */
  predicate Loads(e: OutboxEvent, messages: map<nat, Message>, corrupt: set<nat>) {
    e.aggregate in messages && e.aggregate !in corrupt
  }

  /** The claimed positions whose message can be loaded. */
  function Kept(es: seq<OutboxEvent>, messages: map<nat, Message>, corrupt: set<nat>, at: seq<nat>): seq<nat>
    requires forall k :: 0 <= k < |at| ==> at[k] < |es|
  {
    if at == [] then []
    else
      var last := at[|at| - 1];
      Kept(es, messages, corrupt, at[..|at| - 1]) + if Loads(es[last], messages, corrupt) then [last] else []
  }

  lemma {:induction false} KeptIsLoadable(setup: OutboxRelay.Setup, es: seq<OutboxEvent>, messages: map<nat, Message>,
                                          corrupt: set<nat>, at: seq<nat>)
    requires forall k :: 0 <= k < |at| ==> at[k] < |es|
    requires forall k :: 0 <= k < |at| ==> setup.loadable(at[k]) == Loads(es[at[k]], messages, corrupt)
    ensures Kept(es, messages, corrupt, at) == OutboxRelay.Loadable(setup, at)
  {
    if at != [] {
      KeptIsLoadable(setup, es, messages, corrupt, at[..|at| - 1]);
    }
  }

  /** Exactly the claimed events whose message can be loaded are kept, in the order they were claimed. */
  lemma {:induction false} KeptExactly(es: seq<OutboxEvent>, messages: map<nat, Message>, corrupt: set<nat>,
                                       at: seq<nat>)
    requires forall k :: 0 <= k < |at| ==> at[k] < |es|
    requires forall k, m :: 0 <= k < m < |at| ==> at[k] < at[m]
    ensures var kept := Kept(es, messages, corrupt, at);
      && (forall e :: e in kept <==>
            e in at && e < |es| && es[e].aggregate in messages && es[e].aggregate !in corrupt)
      && (forall k, m :: 0 <= k < m < |kept| ==> kept[k] < kept[m])
  {
    if at != [] {
      var init, last := at[..|at| - 1], at[|at| - 1];
      KeptExactly(es, messages, corrupt, init);
      assert at == init + [last];
      var kept := Kept(es, messages, corrupt, init);
      forall k | 0 <= k < |kept| ensures kept[k] < last {
        assert kept[k] in kept;
        var m :| 0 <= m < |init| && init[m] == kept[k];
        assert at[m] < at[|at| - 1];
      }
    }
  }

  /** What the locked scan claims and keeps is the relay's scan step. */
  lemma ScanIsStep(setup: OutboxRelay.Setup, s: OutboxRelay.State, r: nat, now: int, messages: map<nat, Message>,
                   corrupt: set<nat>)
    requires OutboxRelay.StageOf(s, r) == OutboxRelay.Resting && s.time <= now && 0 < now
    requires forall i :: 0 <= i < |s.events| ==> setup.loadable(i) == Loads(s.events[i], messages, corrupt)
    ensures var owner := "relay:" + setup.names(r);
      var (es, all) := OutboxRelay.ClaimFrom(s.events, 0, now, owner, now + setup.leaseMs, setup.batch);
      var s' := OutboxRelay.Next(setup, s, OutboxRelay.Scan(r, now));
      && s'.events == es && s'.time == now
      && OutboxRelay.StageOf(s', r) == OutboxRelay.Publishing(Kept(es, messages, corrupt, all))
  {
    hide OutboxRelay.ClaimFrom;
    var owner, until := OutboxRelay.Owner(setup, r), now + setup.leaseMs;
    var (es, all) := OutboxRelay.ClaimFrom(s.events, 0, now, owner, until, setup.batch);
    forall k | 0 <= k < |all| ensures setup.loadable(all[k]) == Loads(es[all[k]], messages, corrupt) {
      OutboxRelay.ClaimExactly(s.events, 0, now, owner, until, setup.batch, all[k]);
    }
    KeptIsLoadable(setup, es, messages, corrupt, all);
  }

  ghost predicate Numbered(es: seq<OutboxEvent>) {
    forall i :: 0 <= i < |es| ==> es[i].id == i + 1
  }

  lemma NumberedIndex(es: seq<OutboxEvent>, i: nat)
    requires Numbered(es) && i < |es|
    ensures EventIndex(es, i + 1) == i
  {
    assert es[i].id == i + 1;
  }

  lemma NumberedClaim(es: seq<OutboxEvent>, now: int, owner: string, until: int, limit: nat)
    requires Numbered(es)
    ensures Numbered(OutboxRelay.ClaimFrom(es, 0, now, owner, until, limit).0)
  {
    hide OutboxRelay.ClaimFrom;
    forall j | 0 <= j < |es| ensures OutboxRelay.ClaimFrom(es, 0, now, owner, until, limit).0[j].id == j + 1 {
      OutboxRelay.ClaimExactly(es, 0, now, owner, until, limit, j);
    }
  }

  class Relay {
    const store: InMemoryMessageStore
    const name: string
    const leaseMs: int
    const batch: nat

    constructor (store: InMemoryMessageStore, name: string, leaseMs: int, batch: nat)
      ensures this.store == store && this.name == name && this.leaseMs == leaseMs && this.batch == batch
    {
      this.store, this.name, this.leaseMs, this.batch := store, name, leaseMs, batch;
    }

    /** Claim, then keep the events whose message can be loaded; loading a corrupt one fails. */
    method ScanLocked(now: int, corrupt: set<nat>) returns (requests: seq<OutboxEvent>, ghost at: seq<nat>)
      requires Numbered(store.outbox)
      modifies store`outbox
      ensures var (es, all) :=
          OutboxRelay.ClaimFrom(old(store.outbox), 0, now, "relay:" + name, now + leaseMs, batch);
        && store.outbox == es && at == Kept(es, store.messages, corrupt, all)
      ensures Numbered(store.outbox)
      ensures |requests| == |at|
      ensures forall k :: 0 <= k < |at| ==> at[k] < |store.outbox| && requests[k] == store.outbox[at[k]]
    {
      hide OutboxRelay.ClaimFrom;
      ghost var all;
      var claimed;
      var owner, until := "relay:" + name, now + leaseMs;
      NumberedClaim(store.outbox, now, owner, until, batch);
      claimed, all := store.ClaimOutboxEvents(now, owner, until, batch);
      requests, at := [], [];
      for i := 0 to |claimed|
        invariant store.outbox == OutboxRelay.ClaimFrom(old(store.outbox), 0, now, owner, until, batch).0
        invariant forall k :: 0 <= k < |all| ==> all[k] < |store.outbox| && claimed[k] == store.outbox[all[k]]
        invariant at == Kept(store.outbox, store.messages, corrupt, all[..i]) && |requests| == |at|
        invariant forall k :: 0 <= k < |at| ==> at[k] < |store.outbox| && requests[k] == store.outbox[at[k]]
      {
        assert all[..i + 1][..i] == all[..i];
        var msg := store.FindMessage(claimed[i].aggregate);
        if msg.None? || claimed[i].aggregate in corrupt {
          continue;
        }
        requests, at := requests + [claimed[i]], at + [all[i]];
      }
      assert all[..|all|] == all;
    }

    /**
      Marks each request whose publish returned ok, going on when the store fails on
      a mark; a mismatch of outcomes marks nothing.
    */
    method PublishAndMark(requests: seq<OutboxEvent>, outcomes: seq<bool>, times: nat -> int, stored: nat -> bool,
                          ghost at: seq<nat>)
      requires Numbered(store.outbox) && |requests| == |at|
      requires forall k :: 0 <= k < |at| ==> at[k] < |store.outbox| && requests[k].id == at[k] + 1
      modifies store`outbox
      ensures store.outbox == if |outcomes| != |requests| then old(store.outbox)
                              else MarkedUpTo(old(store.outbox), at, outcomes, times, stored, |at|)
    {
      if |outcomes| != |requests| {
        return;
      }
      for i := 0 to |requests|
        invariant Numbered(store.outbox) && |store.outbox| == |old(store.outbox)|
        invariant store.outbox == MarkedUpTo(old(store.outbox), at, outcomes, times, stored, i)
      {
        if outcomes[i] && stored(i) {
          NumberedIndex(store.outbox, at[i]);
          store.MarkOutboxProcessed(requests[i].id, times(i));
        }
      }
    }
  }
}
