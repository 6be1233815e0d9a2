/**
  Relays that publish the outbox: each claims a batch under a lease, publishes
  it without holding any lock, and marks what was published.  Any number of
  relays run over one store, one atomic step at a time, in any order.
*/
module OutboxRelay {
  import opened Domain

  // ---- The store's operations ----

  /** Unprocessed, due, and not under a running lease. */
  predicate Claimable(e: OutboxEvent, now: int) {
    e.processedAt == 0 && e.availableAt <= now && (e.leaseOwner == "" || e.leaseUntil <= now)
  }

  function Leased(e: OutboxEvent, owner: string, until: int): OutboxEvent {
    e.(leaseOwner := owner, leaseUntil := until, attempts := e.attempts + 1)
  }

  /** The events after a claim of at most `limit`, and the positions claimed, from position i on. */
  function ClaimFrom(es: seq<OutboxEvent>, i: nat, now: int, owner: string, until: int,
                     limit: nat): (r: (seq<OutboxEvent>, seq<nat>))
    requires i <= |es|
    ensures |r.0| == |es| && forall k :: 0 <= k < |r.1| ==> i <= r.1[k] < |es|
    decreases |es| - i
  {
    if i == |es| || limit == 0 then (es, [])
    else if Claimable(es[i], now) then
      var (es', at) := ClaimFrom(es[i := Leased(es[i], owner, until)], i + 1, now, owner, until, limit - 1);
      (es', [i] + at)
    else ClaimFrom(es, i + 1, now, owner, until, limit)
  }

  function Processed(es: seq<OutboxEvent>, i: nat, now: int): seq<OutboxEvent> {
    if i < |es| then es[i := es[i].(processedAt := now, leaseOwner := "", leaseUntil := 0)] else es
  }

  function CountClaimable(es: seq<OutboxEvent>, now: int, n: nat): nat
    requires n <= |es|
  {
    if n == 0 then 0 else CountClaimable(es, now, n - 1) + if Claimable(es[n - 1], now) then 1 else 0
  }

  lemma {:induction false} CountSame(es: seq<OutboxEvent>, fs: seq<OutboxEvent>, now: int, i: nat, j: nat)
    requires i <= j <= |es| == |fs| && forall k :: i <= k < j ==> es[k] == fs[k]
    ensures CountClaimable(es, now, j) - CountClaimable(es, now, i)
         == CountClaimable(fs, now, j) - CountClaimable(fs, now, i)
    decreases j
  {
    if i < j {
      CountSame(es, fs, now, i, j - 1);
    }
  }

  lemma {:induction false} CountGrows(es: seq<OutboxEvent>, now: int, i: nat, j: nat)
    requires i <= j <= |es|
    ensures CountClaimable(es, now, i) <= CountClaimable(es, now, j)
    decreases j
  {
    if i < j {
      CountGrows(es, now, i, j - 1);
    }
  }

  /** A claim takes exactly the first `limit` claimable events and leases each of them once. */
  lemma {:induction false} ClaimExactly(es: seq<OutboxEvent>, i: nat, now: int, owner: string, until: int, limit: nat,
                                        j: nat)
    requires i <= j < |es|
    ensures var (es', at) := ClaimFrom(es, i, now, owner, until, limit);
      && (j in at <==> Claimable(es[j], now) && CountClaimable(es, now, j) - CountClaimable(es, now, i) < limit)
      && es'[j] == (if j in at then Leased(es[j], owner, until) else es[j])
    decreases |es| - i
  {
    CountGrows(es, now, i, j);
    if limit > 0 {
      if Claimable(es[i], now) {
        var es1 := es[i := Leased(es[i], owner, until)];
        if j > i {
          ClaimExactly(es1, i + 1, now, owner, until, limit - 1, j);
          CountSame(es, es1, now, i + 1, j);
        } else {
          ClaimLeaves(es1, i + 1, now, owner, until, limit - 1, i);
        }
      } else if j > i {
        ClaimExactly(es, i + 1, now, owner, until, limit, j);
      } else {
        ClaimLeaves(es, i + 1, now, owner, until, limit, i);
      }
    }
  }

  /** Earlier positions are not touched. */
  lemma {:induction false} ClaimLeaves(es: seq<OutboxEvent>, i: nat, now: int, owner: string, until: int, limit: nat,
                                       j: nat)
    requires j < i <= |es|
    ensures var (es', at) := ClaimFrom(es, i, now, owner, until, limit); es'[j] == es[j] && j !in at
    decreases |es| - i
  {
    if i < |es| && limit > 0 {
      if Claimable(es[i], now) {
        ClaimLeaves(es[i := Leased(es[i], owner, until)], i + 1, now, owner, until, limit - 1, j);
      } else {
        ClaimLeaves(es, i + 1, now, owner, until, limit, j);
      }
    }
  }

  // ---- Relays ----

  datatype Stage =
    | Resting
    | Publishing(requests: seq<nat>)
    | Marking(requests: seq<nat>, ok: seq<bool>, next: nat)

  /** One claim ever made. */
  datatype Claim = Claim(event: nat, at: int, until: int)

  /** `claims` and `published` are history: claims in order, and events some publish of which returned ok. */
  datatype State = State(
    events: seq<OutboxEvent>, relays: map<nat, Stage>, time: int, claims: seq<Claim>, published: set<nat>)

  /** Whether an event's message can be loaded, what tells relays apart, and the relays' settings. */
  datatype Setup = Setup(loadable: nat -> bool, names: nat -> string, leaseMs: int, batch: nat)

  /** Lease owners are never empty, which would mean an unleased event. */
  function Owner(setup: Setup, r: nat): string {
    "relay:" + setup.names(r)
  }

  datatype Action =
    | Add(event: OutboxEvent)
    | Scan(relay: nat, now: int)
    | Publish(relay: nat, outcomes: seq<bool>)
    | Mark(relay: nat, now: int, stored: bool)

  const EMPTY := State([], map[], 0, [], {})

  function StageOf(s: State, r: nat): Stage {
    if r in s.relays then s.relays[r] else Resting
  }

  function Loadable(setup: Setup, at: seq<nat>): seq<nat> {
    if at == [] then []
    else Loadable(setup, at[..|at| - 1]) + if setup.loadable(at[|at| - 1]) then [at[|at| - 1]] else []
  }

  function ClaimsOf(at: seq<nat>, now: int, until: int): (cs: seq<Claim>)
    ensures |cs| == |at| && forall k :: 0 <= k < |at| ==> cs[k] == Claim(at[k], now, until)
  {
    seq(|at|, k requires 0 <= k < |at| => Claim(at[k], now, until))
  }

  function Scanned(setup: Setup, s: State, r: nat, now: int): State {
    var (events, at) := ClaimFrom(s.events, 0, now, Owner(setup, r), now + setup.leaseMs, setup.batch);
    s.(events := events, time := now, claims := s.claims + ClaimsOf(at, now, now + setup.leaseMs),
       relays := s.relays[r := Publishing(Loadable(setup, at))])
  }

  /** Outcomes that do not match the requests one for one count as failures. */
  function Published(s: State, r: nat, outcomes: seq<bool>): State
    requires StageOf(s, r).Publishing?
  {
    var requests := StageOf(s, r).requests;
    if |outcomes| != |requests| then s.(relays := s.relays[r := Resting])
    else
      s.(relays := s.relays[r := Marking(requests, outcomes, 0)],
         published := s.published + set k | 0 <= k < |requests| && outcomes[k] :: requests[k])
  }

  /** An event is marked if its publish was ok and the store takes the mark. */
  function Marked(s: State, r: nat, now: int, stored: bool): State
    requires StageOf(s, r).Marking?
  {
    var m := StageOf(s, r);
    if m.next >= |m.requests| || m.next >= |m.ok| then s.(relays := s.relays[r := Resting])
    else
      s.(events := if m.ok[m.next] && stored then Processed(s.events, m.requests[m.next], now) else s.events,
         time := now, relays := s.relays[r := m.(next := m.next + 1)])
  }

  /** The clock never runs backwards and is never zero or less. */
  function Next(setup: Setup, s: State, a: Action): State {
    match a
    case Add(e) => s.(events := s.events + [e.(leaseOwner := "", leaseUntil := 0, attempts := 0, processedAt := 0)])
    case Scan(r, now) => if StageOf(s, r) == Resting && s.time <= now && 0 < now then Scanned(setup, s, r, now) else s
    case Publish(r, outcomes) => if StageOf(s, r).Publishing? then Published(s, r, outcomes) else s
    case Mark(r, now, stored) =>
      if StageOf(s, r).Marking? && s.time <= now && 0 < now then Marked(s, r, now, stored) else s
  }

  function Run(setup: Setup, s: State, actions: seq<Action>): State {
    if actions == [] then s else Next(setup, Run(setup, s, actions[..|actions| - 1]), actions[|actions| - 1])
  }

  /**
    A publish answered for every request goes on to mark them in order, exactly the
    requests answered ok counting as published; any other answer marks nothing.
  */
  lemma PublishExactly(setup: Setup, s: State, r: nat, outcomes: seq<bool>, e: nat)
    requires StageOf(s, r).Publishing?
    ensures var s', requests := Next(setup, s, Publish(r, outcomes)), StageOf(s, r).requests;
      && s'.events == s.events
      && StageOf(s', r) == (if |outcomes| == |requests| then Marking(requests, outcomes, 0) else Resting)
      && (e in s'.published <==>
            || e in s.published
            || (|outcomes| == |requests| && exists k :: 0 <= k < |requests| && requests[k] == e && outcomes[k]))
  {}

  // ---- The invariant ----

  /** Two claims of one event never run at the same time. */
  ghost predicate Apart(claims: seq<Claim>) {
    forall i, j :: 0 <= i < j < |claims| && claims[i].event == claims[j].event ==> claims[i].until <= claims[j].at
  }

  /** An unprocessed event is leased for as long as any claim of it runs. */
  ghost predicate Guarded(s: State) {
    forall k :: 0 <= k < |s.claims| ==>
      s.claims[k].event < |s.events| && GuardedClaim(s.events[s.claims[k].event], s.claims[k], s.time)
  }

  predicate GuardedClaim(e: OutboxEvent, c: Claim, time: int) {
    e.processedAt == 0 ==> e.leaseOwner != "" && (c.until <= e.leaseUntil || c.until <= time)
  }

  ghost predicate Earned(s: State) {
    && (forall i :: 0 <= i < |s.events| && s.events[i].processedAt != 0 ==> i in s.published)
    && (forall r :: r in s.relays && s.relays[r].Marking? ==> EarnedBy(s.relays[r], s.published))
  }

  ghost predicate EarnedBy(m: Stage, published: set<nat>)
    requires m.Marking?
  {
    forall k :: 0 <= k < |m.ok| && k < |m.requests| && m.ok[k] ==> m.requests[k] in published
  }

  ghost predicate Inv(s: State) {
    Apart(s.claims) && Guarded(s) && Earned(s)
  }

  lemma ApartAppend(claims: seq<Claim>, at: seq<nat>, now: int, until: int)
    requires Apart(claims) && Ascending(at)
    requires forall k :: 0 <= k < |claims| && claims[k].event in at ==> claims[k].until <= now
    ensures Apart(claims + ClaimsOf(at, now, until))
  {
    var all, n := claims + ClaimsOf(at, now, until), |claims|;
    assert forall k :: n <= k < |all| ==> all[k] == Claim(at[k - n], now, until) && all[k].event in at;
    assert forall i, j :: n <= i < j < |all| ==> all[i].event < all[j].event;
  }

  /** What a claim does to each event. */
  ghost predicate Takes(es: seq<OutboxEvent>, fs: seq<OutboxEvent>, at: seq<nat>, now: int, owner: string, until: int) {
    && |fs| == |es| && Ascending(at) && (forall k :: 0 <= k < |at| ==> at[k] < |es|)
    && (forall j :: 0 <= j < |es| ==>
          && (j in at ==> Claimable(es[j], now) && fs[j] == Leased(es[j], owner, until))
          && (j !in at ==> fs[j] == es[j]))
  }

  lemma ClaimTakes(es: seq<OutboxEvent>, now: int, owner: string, until: int, limit: nat)
    ensures var (fs, at) := ClaimFrom(es, 0, now, owner, until, limit); Takes(es, fs, at, now, owner, until)
  {
    hide ClaimFrom;
    ClaimAscending(es, 0, now, owner, until, limit);
    forall j | 0 <= j < |es|
      ensures var (fs, at) := ClaimFrom(es, 0, now, owner, until, limit);
        && (j in at ==> Claimable(es[j], now) && fs[j] == Leased(es[j], owner, until)) && (j !in at ==> fs[j] == es[j])
    {
      ClaimExactly(es, 0, now, owner, until, limit, j);
    }
  }

  lemma GuardedAppend(s: State, s': State, at: seq<nat>, now: int, owner: string, until: int)
    requires Guarded(s) && s.time <= now && owner != "" && Takes(s.events, s'.events, at, now, owner, until)
    requires s'.time == now && s'.claims == s.claims + ClaimsOf(at, now, until)
    ensures Guarded(s')
    ensures forall k :: 0 <= k < |s.claims| && s.claims[k].event in at ==> s.claims[k].until <= now
  {
    forall k | 0 <= k < |s'.claims|
      ensures s'.claims[k].event < |s'.events| && GuardedClaim(s'.events[s'.claims[k].event], s'.claims[k], now)
      ensures k < |s.claims| && s.claims[k].event in at ==> s.claims[k].until <= now
    {
      if k < |s.claims| {
        assert GuardedClaim(s.events[s.claims[k].event], s.claims[k], s.time);
      } else {
        assert at[k - |s.claims|] in at;
      }
    }
  }

  lemma ScannedClaims(setup: Setup, s: State, r: nat, now: int)
    requires Apart(s.claims) && Guarded(s) && s.time <= now
    ensures var s' := Scanned(setup, s, r, now); Apart(s'.claims) && Guarded(s')
  {
    hide ClaimFrom;
    hide Apart;
    hide Guarded;
    hide Takes;
    var until := now + setup.leaseMs;
    var at := ClaimFrom(s.events, 0, now, Owner(setup, r), until, setup.batch).1;
    ClaimTakes(s.events, now, Owner(setup, r), until, setup.batch);
    GuardedAppend(s, Scanned(setup, s, r, now), at, now, Owner(setup, r), until);
    ClaimAscending(s.events, 0, now, Owner(setup, r), until, setup.batch);
    ApartAppend(s.claims, at, now, until);
  }

  ghost predicate Ascending(at: seq<nat>) {
    forall k, m :: 0 <= k < m < |at| ==> at[k] < at[m]
  }

  lemma {:induction false} ClaimAscending(es: seq<OutboxEvent>, i: nat, now: int, owner: string, until: int, limit: nat)
    requires i <= |es|
    ensures Ascending(ClaimFrom(es, i, now, owner, until, limit).1)
    decreases |es| - i
  {
    if i < |es| && limit > 0 {
      if Claimable(es[i], now) {
        var es1 := es[i := Leased(es[i], owner, until)];
        ClaimAscending(es1, i + 1, now, owner, until, limit - 1);
        var rest := ClaimFrom(es1, i + 1, now, owner, until, limit - 1).1;
        var at := [i] + rest;
        assert forall k, m :: 0 <= k < m < |at| ==> at[k] < at[m];
      } else {
        ClaimAscending(es, i + 1, now, owner, until, limit);
      }
    }
  }

  lemma ScannedEarned(setup: Setup, s: State, r: nat, now: int)
    requires Earned(s)
    ensures Earned(Scanned(setup, s, r, now))
  {
    hide ClaimFrom;
    var s' := Scanned(setup, s, r, now);
    forall j | 0 <= j < |s.events| ensures s'.events[j].processedAt == s.events[j].processedAt {
      ClaimExactly(s.events, 0, now, Owner(setup, r), now + setup.leaseMs, setup.batch, j);
    }
  }

  lemma NextInv(setup: Setup, s: State, a: Action)
    requires Inv(s)
    ensures Inv(Next(setup, s, a))
  {
    hide Apart;
    match a
    case Add(e) =>
      assert forall i :: 0 <= i < |s.events| ==> Next(setup, s, a).events[i] == s.events[i];
    case Scan(r, now) =>
      hide Earned;
      hide Guarded;
      hide Scanned;
      if StageOf(s, r) == Resting && s.time <= now && 0 < now {
        ScannedClaims(setup, s, r, now);
        ScannedEarned(setup, s, r, now);
      }
    case Publish(r, outcomes) =>
    case Mark(r, now, stored) =>
  }

  lemma {:induction false} RunInv(setup: Setup, s: State, actions: seq<Action>)
    requires Inv(s)
    ensures Inv(Run(setup, s, actions))
  {
    hide Next;
    hide Inv;
    if actions != [] {
      RunInv(setup, s, actions[..|actions| - 1]);
      NextInv(setup, Run(setup, s, actions[..|actions| - 1]), actions[|actions| - 1]);
    }
  }

  /** Over every run: claims of one event never overlap in time, and only a published event is processed. */
  lemma ClaimsNeverOverlap(setup: Setup, actions: seq<Action>)
    ensures var s := Run(setup, EMPTY, actions);
      && (forall i, j :: 0 <= i < j < |s.claims| && s.claims[i].event == s.claims[j].event ==>
            s.claims[i].until <= s.claims[j].at)
      && (forall i :: 0 <= i < |s.events| && s.events[i].processedAt != 0 ==> i in s.published)
  {
    RunInv(setup, EMPTY, actions);
  }

  // ---- Processed for good ----

  lemma NextProcessed(setup: Setup, s: State, a: Action, e: nat)
    requires e < |s.events| && s.events[e].processedAt != 0
    ensures var s' := Next(setup, s, a);
      && e < |s'.events| && s'.events[e].processedAt != 0 && s.claims <= s'.claims
      && (forall k :: |s.claims| <= k < |s'.claims| ==> s'.claims[k].event != e)
  {
    hide ClaimFrom;
    if a.Scan? {
      var at := ClaimFrom(s.events, 0, a.now, Owner(setup, a.relay), a.now + setup.leaseMs, setup.batch).1;
      ClaimExactly(s.events, 0, a.now, Owner(setup, a.relay), a.now + setup.leaseMs, setup.batch, e);
      assert forall k :: 0 <= k < |at| ==> at[k] in at;
    }
  }

  /** A processed event stays processed and is never claimed again. */
  lemma {:induction false} ProcessedForGood(setup: Setup, s: State, actions: seq<Action>, e: nat)
    requires e < |s.events| && s.events[e].processedAt != 0
    ensures var s' := Run(setup, s, actions);
      && e < |s'.events| && s'.events[e].processedAt != 0 && s.claims <= s'.claims
      && (forall k :: |s.claims| <= k < |s'.claims| ==> s'.claims[k].event != e)
  {
    hide Next;
    if actions != [] {
      ProcessedForGood(setup, s, actions[..|actions| - 1], e);
      NextProcessed(setup, Run(setup, s, actions[..|actions| - 1]), actions[|actions| - 1], e);
    }
  }

  /** A scan claims an event exactly if it is unprocessed, available, unleased, and within reach of the batch. */
  lemma ScanClaims(setup: Setup, s: State, r: nat, now: int, e: nat)
    requires StageOf(s, r) == Resting && s.time <= now && 0 < now && e < |s.events|
    ensures var s', ev := Next(setup, s, Scan(r, now)), s.events[e];
      Claim(e, now, now + setup.leaseMs) in s'.claims[|s.claims|..]
      <==> ev.processedAt == 0 && ev.availableAt <= now && (ev.leaseOwner == "" || ev.leaseUntil <= now)
           && CountClaimable(s.events, now, e) < setup.batch
  {
    hide ClaimFrom;
    var s' := Next(setup, s, Scan(r, now));
    var at := ClaimFrom(s.events, 0, now, Owner(setup, r), now + setup.leaseMs, setup.batch).1;
    ClaimExactly(s.events, 0, now, Owner(setup, r), now + setup.leaseMs, setup.batch, e);
    var added := s'.claims[|s.claims|..];
    assert added == ClaimsOf(at, now, now + setup.leaseMs);
    if e in at {
      var k :| 0 <= k < |at| && at[k] == e;
      assert added[k] == Claim(e, now, now + setup.leaseMs);
    }
  }
}
