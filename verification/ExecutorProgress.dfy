/**
  What the keyed serial executor takes in and gets done: when a submission is
  accepted, that no accepted task is stranded, and what a worker's turn achieves.
*/
module ExecutorProgress {
  import opened SerialExecutor

  /** The accepted tasks of a key that have not left its lane yet, oldest first. */
  function Backlog(s: State, k: Key): seq<Task> {
    var gone := |At(s.verdicts, k)|;
    if gone <= |At(s.accepted, k)| then At(s.accepted, k)[gone..] else []
  }

  lemma LaneState(c: Settings, s: State, k: Key)
    requires Inv(c, s)
    ensures LaneAt(s.lanes, k).queue == Backlog(s, k) && |At(s.verdicts, k)| <= |At(s.accepted, k)|
    ensures LaneAt(s.lanes, k).status == Queued <==> k in s.ready
    ensures LaneAt(s.lanes, k).status == Running <==> Served(s.workers, k)
  {
    AccountedAt(s, k);
    if Served(s.workers, k) {
      var i :| 0 <= i < |s.workers| && s.workers[i].Busy? && s.workers[i].key == k;
      RunningAt(s.lanes, s.workers, i);
    }
  }

  /** A state the executor can get into. */
  ghost predicate Reachable(c: Settings, s: State) {
    exists workerCount: nat, actions :: s == Run(c, Initial(workerCount), actions)
  }

  lemma ReachableInv(c: Settings, s: State)
    requires Reachable(c, s)
    ensures Inv(c, s)
  {
    hide Inv;
    hide Run;
    hide Initial;
    var workerCount: nat, actions :| s == Run(c, Initial(workerCount), actions);
    InitialInv(c, workerCount);
    RunInv(c, Initial(workerCount), actions);
  }

  /**
    In every reachable state a submission is turned away for good exactly after
    shutdown, and accepted exactly if the key has room for it and either already
    has its turn, waiting or running, or the ready queue has room for one more key.
  */
  lemma SubmitExactly(c: Settings, s: State, k: Key)
    requires Reachable(c, s)
    ensures ResultOf(c, s, k) == RejectedShutdown <==> s.down
    ensures ResultOf(c, s, k) == Accepted
       <==> && !s.down && |Backlog(s, k)| < c.laneCapacity
            && (k in s.ready || Served(s.workers, k) || |s.ready| < c.globalCapacity)
  {
    hide Reachable;
    hide Inv;
    hide Served;
    hide Backlog;
    ReachableInv(c, s);
    LaneState(c, s, k);
  }

  /** An accepted task is the last of its key, the only change to what was accepted; a refused one leaves no trace. */
  lemma SubmitAppends(c: Settings, s: State, k: Key, id: nat, deadline: int, j: Key)
    ensures var s' := Submitted(c, s, k, id, deadline);
      && At(s'.accepted, j)
         == At(s.accepted, j)
            + (if j == k && ResultOf(c, s, k) == Accepted then [Task(id, c.clock(s.ticks), deadline)] else [])
      && s'.verdicts == s.verdicts && s'.workers == s.workers && s.ready <= s'.ready
  {}

  /** No task is stranded: a key with a backlog waits for a worker or has one. */
  lemma NothingStranded(c: Settings, s: State, k: Key)
    requires Reachable(c, s)
    ensures Backlog(s, k) != [] ==> k in s.ready || Served(s.workers, k)
    ensures k in s.ready ==> Backlog(s, k) != []
  {
    hide Reachable;
    hide Served;
    hide Backlog;
    ReachableInv(c, s);
    LaneState(c, s, k);
  }

  /** The first n tasks have passed their deadline, one clock reading each, and the next has not. */
  ghost predicate FirstInTime(c: Settings, q: seq<Task>, ticks: nat, n: nat) {
    && n <= |q|
    && (forall i :: 0 <= i < n ==> q[i].deadline > 0 && c.clock(ticks + i) - q[i].submitAt > q[i].deadline)
    && (n < |q| ==> !(q[n].deadline > 0 && c.clock(ticks + n) - q[n].submitAt > q[n].deadline))
  }

  lemma {:induction false} DroppedFirst(c: Settings, q: seq<Task>, ticks: nat)
    ensures FirstInTime(c, q, ticks, Dropped(c, q, ticks))
    decreases |q|
  {
    if q != [] && IsExpired(q[0], c.clock(ticks)) {
      DroppedFirst(c, q[1..], ticks + 1);
      forall i | 0 <= i < Dropped(c, q, ticks)
        ensures q[i].deadline > 0 && c.clock(ticks + i) - q[i].submitAt > q[i].deadline
      {
        if i > 0 {
          assert q[i] == q[1..][i - 1] && ticks + i == (ticks + 1) + (i - 1);
        }
      }
    }
  }

  /** What a turn with key k at the front comes to when n of its tasks are too late. */
  ghost predicate Turned(c: Settings, s: State, s': State, i: nat, k: Key, n: nat) {
    && i < |s.workers| && FirstInTime(c, Backlog(s, k), s.ticks, n) && s'.accepted == s.accepted
    && s'.workers == (if n < |Backlog(s, k)| then s.workers[i := Busy(k, Backlog(s, k)[n])] else s.workers)
    && Backlog(s', k) == (if n < |Backlog(s, k)| then Backlog(s, k)[n + 1..] else [])
  }

  /**
    A waiting worker's turn: with nothing ready it leaves exactly after shutdown;
    otherwise it takes the front key and starts the first task of its backlog that
    is in time, or finds none and is free again.
  */
  lemma TurnExactly(c: Settings, s: State, i: nat)
    requires Reachable(c, s) && i < |s.workers| && s.workers[i] == Waiting
    ensures var s' := Next(c, s, Take(i));
      if s.ready == [] then s' == if s.down then s.(workers := s.workers[i := Exited]) else s
      else s'.ready == s.ready[1..] && exists n: nat :: Turned(c, s, s', i, s.ready[0], n)
  {
    hide Reachable;
    if s.ready != [] {
      hide Inv;
      ReachableInv(c, s);
      FrontTurned(c, s, i);
    }
  }

  lemma FrontTurned(c: Settings, s: State, i: nat)
    requires Inv(c, s) && i < |s.workers| && s.workers[i] == Waiting && s.ready != []
    ensures var s' := Next(c, s, Take(i));
      s'.ready == s.ready[1..] && exists n: nat :: Turned(c, s, s', i, s.ready[0], n)
  {
    hide Inv;
    hide Served;
    hide Next;
    var k, s' := s.ready[0], Next(c, s, Take(i));
    LaneState(c, s, k);
    NextInv(c, s, Take(i));
    LaneState(c, s', k);
    TakenShape(c, s, i);
    hide Backlog;
    hide Dropped;
    DroppedFirst(c, Backlog(s, k), s.ticks);
    assert Turned(c, s, s', i, k, Dropped(c, Backlog(s, k), s.ticks));
  }

  lemma TakenShape(c: Settings, s: State, i: nat)
    requires i < |s.workers| && s.workers[i] == Waiting && s.ready != [] && LaneAt(s.lanes, s.ready[0]).status == Queued
    ensures var s', k := Next(c, s, Take(i)), s.ready[0];
      var q := LaneAt(s.lanes, k).queue;
      var n := Dropped(c, q, s.ticks);
      && s'.ready == s.ready[1..] && s'.accepted == s.accepted
      && s'.workers == (if n < |q| then s.workers[i := Busy(k, q[n])] else s.workers)
      && LaneAt(s'.lanes, k).queue == (if n < |q| then q[n + 1..] else [])
  {
    hide Dropped;
    hide Leaving;
  }

  /** A worker that finishes is free, and its key is ready again exactly if it has a backlog. */
  lemma FinishExactly(c: Settings, s: State, i: nat)
    requires Reachable(c, s) && i < |s.workers| && s.workers[i].Busy?
    ensures var s', k := Next(c, s, Finish(i)), s.workers[i].key;
      && s'.workers == s.workers[i := Waiting] && s'.accepted == s.accepted && s'.verdicts == s.verdicts
      && s'.ready == s.ready + (if Backlog(s, k) != [] then [k] else [])
  {
    hide Reachable;
    hide Served;
    ReachableInv(c, s);
    RunningAt(s.lanes, s.workers, i);
    LaneState(c, s, s.workers[i].key);
    hide Inv;
    hide Backlog;
    assert s.ready + [] == s.ready;
  }

  /** Shutdown is for good: every state after it is down. */
  lemma {:induction false} DownForGood(c: Settings, s: State, actions: seq<Action>)
    requires s.down || Shutdown in actions
    ensures Run(c, s, actions).down
  {
    hide Dropped;
    hide Leaving;
    if actions != [] {
      var before, last := actions[..|actions| - 1], actions[|actions| - 1];
      if s.down || Shutdown in before {
        DownForGood(c, s, before);
      } else {
        assert last == Shutdown;
      }
    }
  }
}
