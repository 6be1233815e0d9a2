/**
  The metrics recorder: state gauges over the tracked deliveries, the ordered
  set of pending ones, and eviction of finished deliveries.  A delivery's
  metric identity is its key (the program hashes the key to 64 bits).
*/
module Recorder {
  import opened Domain

  /** What the recorder remembers of one delivery. */
  datatype Metric = Metric(state: DeliveryState, since: int)

  /** An entry of the age-ordered index of pending deliveries. */
  datatype Aged = Aged(since: int, key: Key)

  datatype State = State(
    created: int, pending: int, inflight: int, acked: int, expired: int,
    attempts: int, retries: int,
    tracked: map<Key, Metric>, pendingByAge: set<Aged>, clockReads: nat)

  const EMPTY := State(0, 0, 0, 0, 0, 0, 0, map[], {}, 0)

  function Bit(b: bool): int { if b then 1 else 0 }

  function Created(r: State, k: Key, acceptedAt: int): State {
    if k in r.tracked then r
    else r.(created := r.created + 1, pending := r.pending + 1,
            tracked := r.tracked[k := Metric(Pending, acceptedAt)],
            pendingByAge := r.pendingByAge + {Aged(acceptedAt, k)})
  }

  /**
    Moves the gauges from one state to the other.  An unknown delivery makes
    the program throw, and its callers discard the exception.  Re-entering
    Pending takes the time of the recorder's own clock.
  */
  function Transition(clock: nat -> int, r: State, k: Key, from: DeliveryState, to: DeliveryState): State {
    if k !in r.tracked || from == to then r
    else
      var gone := if from == Pending then r.pendingByAge - {Aged(r.tracked[k].since, k)} else r.pendingByAge;
      var since := if to == Pending then clock(r.clockReads) else r.tracked[k].since;
      r.(pending := r.pending - Bit(from == Pending) + Bit(to == Pending),
         inflight := r.inflight - Bit(from == InFlight) + Bit(to == InFlight),
         acked := r.acked - Bit(from == Acknowledged) + Bit(to == Acknowledged),
         expired := r.expired - Bit(from == Expired) + Bit(to == Expired),
         tracked := r.tracked[k := Metric(to, since)],
         pendingByAge := if to == Pending then gone + {Aged(since, k)} else gone,
         clockReads := if to == Pending then r.clockReads + 1 else r.clockReads)
  }

  function Attempted(r: State, isRetry: bool): State {
    r.(attempts := r.attempts + 1, retries := r.retries + Bit(isRetry))
  }

  function Evicted(r: State, k: Key): State {
    if k !in r.tracked then r
    else
      r.(tracked := r.tracked - {k},
         pendingByAge :=
           if r.tracked[k].state == Pending then r.pendingByAge - {Aged(r.tracked[k].since, k)} else r.pendingByAge)
  }

  /** Terminal transition followed by eviction, as every caller pairs them. */
  function Finished(clock: nat -> int, r: State, k: Key, from: DeliveryState, to: DeliveryState): State {
    Evicted(Transition(clock, r, k, from, to), k)
  }

  // ---- What the gauges mean ----

  ghost function Having(open: map<Key, DeliveryState>, s: DeliveryState): set<Key> {
    set k | k in open && open[k] == s
  }

  /** The recorder tracks exactly the open deliveries, and its age index holds the pending ones. */
  ghost predicate Tracks(r: State, open: map<Key, DeliveryState>) {
    && (forall k :: k in open ==> open[k] == Pending || open[k] == InFlight)
    && (forall k :: k in r.tracked <==> k in open)
    && (forall k :: k in open ==> r.tracked[k].state == open[k])
    && (forall a :: a in r.pendingByAge <==>
          a.key in open && open[a.key] == Pending && r.tracked[a.key].since == a.since)
  }

  /** The gauges count the open deliveries, and all four add up to everything ever created. */
  ghost predicate Counts(r: State, open: map<Key, DeliveryState>) {
    && r.pending == |Having(open, Pending)|
    && r.inflight == |Having(open, InFlight)|
    && r.created == r.pending + r.inflight + r.acked + r.expired
  }

  ghost predicate Mirrors(r: State, open: map<Key, DeliveryState>) {
    Tracks(r, open) && Counts(r, open)
  }

  lemma HavingUpdate(open: map<Key, DeliveryState>, k: Key, s: DeliveryState, t: DeliveryState)
    ensures |Having(open[k := s], t)| == |Having(open, t)| - Bit(k in open && open[k] == t) + Bit(s == t)
  {
    var before, after := Having(open, t), Having(open[k := s], t);
    if s == t {
      assert after == before + {k};
    } else {
      assert after == before - {k};
    }
  }

  lemma HavingRemove(open: map<Key, DeliveryState>, k: Key, t: DeliveryState)
    ensures |Having(open - {k}, t)| == |Having(open, t)| - Bit(k in open && open[k] == t)
  {
    assert Having(open - {k}, t) == Having(open, t) - {k};
  }

  lemma CreatedTracks(r: State, open: map<Key, DeliveryState>, k: Key, acceptedAt: int)
    requires Tracks(r, open) && k !in open
    ensures Tracks(Created(r, k, acceptedAt), open[k := Pending])
  {}

  /** A new delivery enters as pending; repeating the creation changes nothing. */
  lemma CreatedMirrors(r: State, open: map<Key, DeliveryState>, k: Key, acceptedAt: int)
    requires Mirrors(r, open)
    ensures Mirrors(Created(r, k, acceptedAt), if k in open then open else open[k := Pending])
    ensures Created(r, k, acceptedAt).created == r.created + Bit(k !in open)
    ensures Created(r, k, acceptedAt).acked == r.acked && Created(r, k, acceptedAt).expired == r.expired
  {
    if k !in open {
      CreatedTracks(r, open, k, acceptedAt);
      HavingUpdate(open, k, Pending, Pending);
      HavingUpdate(open, k, Pending, InFlight);
    }
  }

  lemma TransitionTracks(clock: nat -> int, r: State, open: map<Key, DeliveryState>, k: Key, to: DeliveryState)
    requires Tracks(r, open) && k in open && to != open[k] && (to == Pending || to == InFlight)
    ensures Tracks(Transition(clock, r, k, open[k], to), open[k := to])
  {
    var r' := Transition(clock, r, k, open[k], to);
    assert forall q :: q in r.tracked && q != k ==> r'.tracked[q] == r.tracked[q];
  }

  /** Moving an open delivery between Pending and InFlight moves the mirror with it. */
  lemma TransitionMirrors(clock: nat -> int, r: State, open: map<Key, DeliveryState>, k: Key, to: DeliveryState)
    requires Mirrors(r, open) && k in open && (to == Pending || to == InFlight)
    ensures Mirrors(Transition(clock, r, k, open[k], to), open[k := to])
    ensures var r' := Transition(clock, r, k, open[k], to); r'.acked == r.acked && r'.expired == r.expired
  {
    if open[k] == to {
      assert open[k := to] == open;
    } else {
      TransitionTracks(clock, r, open, k, to);
      HavingUpdate(open, k, to, Pending);
      HavingUpdate(open, k, to, InFlight);
    }
  }

  lemma FinishedTracks(clock: nat -> int, r: State, open: map<Key, DeliveryState>, k: Key, to: DeliveryState)
    requires Tracks(r, open) && k in open && (to == Acknowledged || to == Expired)
    ensures Tracks(Finished(clock, r, k, open[k], to), open - {k})
  {}

  /** Finishing a delivery removes it; finishing one already evicted changes nothing. */
  lemma FinishedMirrors(clock: nat -> int, r: State, open: map<Key, DeliveryState>, k: Key, from: DeliveryState,
                        to: DeliveryState)
    requires Mirrors(r, open) && (k in open ==> open[k] == from) && (to == Acknowledged || to == Expired)
    ensures Mirrors(Finished(clock, r, k, from, to), open - {k})
    ensures var r' := Finished(clock, r, k, from, to);
      && r'.acked == r.acked + Bit(k in open && to == Acknowledged)
      && r'.expired == r.expired + Bit(k in open && to == Expired)
  {
    if k in open {
      FinishedTracks(clock, r, open, k, to);
      HavingRemove(open, k, Pending);
      HavingRemove(open, k, InFlight);
    } else {
      assert open - {k} == open;
    }
  }
}
