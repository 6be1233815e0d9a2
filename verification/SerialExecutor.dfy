/**
  The keyed serial executor: N workers share a queue of ready keys, and every
  key has a lane of tasks that run one at a time.  A state machine with one
  action per lock region, run in any interleaving of submitters and workers;
  the clock shows any readings.
*/
module SerialExecutor {

  type Key = nat

  datatype Task = Task(id: nat, submitAt: int, deadline: int)

  datatype Status = Idle | Queued | Running

  datatype Lane = Lane(queue: seq<Task>, status: Status)

  datatype Worker = Waiting | Busy(key: Key, task: Task) | Exited

  /** What became of a task that left its lane, judged at that clock reading. */
  datatype Verdict = Verdict(task: Task, ran: bool, at: int)

  datatype Settings = Settings(globalCapacity: int, laneCapacity: int, clock: nat -> int)

  /**
    `accepted`, `verdicts` and `popped` are history: each key's accepted tasks, what
    became of those that left the lane, and the order in which keys were taken.
  */
  datatype State = State(
    lanes: map<Key, Lane>, ready: seq<Key>, workers: seq<Worker>, down: bool, ticks: nat,
    accepted: map<Key, seq<Task>>, verdicts: map<Key, seq<Verdict>>, popped: seq<Key>)

  datatype SubmitResult = Accepted | RejectedFull | RejectedShutdown

  datatype Action =
    | Submit(key: Key, id: nat, deadline: int)
    | Take(worker: nat)
    | Finish(worker: nat)
    | Shutdown

  function Initial(workerCount: nat): State {
    State(map[], [], seq(workerCount, i => Waiting), false, 0, map[], map[], [])
  }

  function At<T>(m: map<Key, seq<T>>, k: Key): seq<T> {
    if k in m then m[k] else []
  }

  function LaneAt(lanes: map<Key, Lane>, k: Key): Lane {
    if k in lanes then lanes[k] else Lane([], Idle)
  }

  predicate IsExpired(t: Task, now: int) {
    t.deadline > 0 && now - t.submitAt > t.deadline
  }

  // ---- The lock regions ----

  function ResultOf(c: Settings, s: State, k: Key): SubmitResult {
    var lane := LaneAt(s.lanes, k);
    if s.down then RejectedShutdown
    else if |lane.queue| >= c.laneCapacity then RejectedFull
    else if lane.status == Idle && |s.ready| >= c.globalCapacity then RejectedFull
    else Accepted
  }

  /** submit: looking the lane up creates it, even when the submission is then refused. */
  function Submitted(c: Settings, s: State, k: Key, id: nat, deadline: int): State {
    var lane := LaneAt(s.lanes, k);
    match ResultOf(c, s, k)
    case RejectedShutdown => s
    case RejectedFull => s.(lanes := s.lanes[k := lane])
    case Accepted =>
      var t := Task(id, c.clock(s.ticks), deadline);
      s.(lanes := s.lanes[k := Lane(lane.queue + [t], if lane.status == Idle then Queued else lane.status)],
         ready := if lane.status == Idle then s.ready + [k] else s.ready,
         ticks := s.ticks + 1, accepted := s.accepted[k := At(s.accepted, k) + [t]])
  }

  /** How many tasks at the head of the queue have passed their deadline, one clock reading each. */
  function Dropped(c: Settings, q: seq<Task>, ticks: nat): (n: nat)
    ensures n <= |q|
  {
    if q == [] || !IsExpired(q[0], c.clock(ticks)) then 0 else 1 + Dropped(c, q[1..], ticks + 1)
  }

  function Leaving(c: Settings, q: seq<Task>, ticks: nat): (vs: seq<Verdict>)
    ensures |vs| == if Dropped(c, q, ticks) < |q| then Dropped(c, q, ticks) + 1 else |q|
    ensures forall i :: 0 <= i < |vs| ==> vs[i] == Verdict(q[i], i == Dropped(c, q, ticks), c.clock(ticks + i))
  {
    var n := Dropped(c, q, ticks);
    seq(if n < |q| then n + 1 else |q|, i requires 0 <= i <= n && i < |q| => Verdict(q[i], i == n, c.clock(ticks + i)))
  }

  /** The first half of the worker loop: take the front key, skip its expired tasks, start the next one. */
  function Taken(c: Settings, s: State, i: nat): State {
    if i >= |s.workers| || s.workers[i] != Waiting then s
    else if s.ready == [] then
      if s.down then s.(workers := s.workers[i := Exited]) else s
    else
      var k := s.ready[0];
      var s' := s.(ready := s.ready[1..], popped := s.popped + [k]);
      if k !in s.lanes then s'
      else
        var q, n := s.lanes[k].queue, Dropped(c, s.lanes[k].queue, s.ticks);
        var s'' := s'.(ticks := s.ticks + |Leaving(c, q, s.ticks)|,
                       verdicts := s.verdicts[k := At(s.verdicts, k) + Leaving(c, q, s.ticks)]);
        if n == |q| then s''.(lanes := s.lanes - {k})
        else s''.(lanes := s.lanes[k := Lane(q[n + 1..], Running)], workers := s.workers[i := Busy(k, q[n])])
  }

  /** The second half: the lane goes back to the end of the ready queue, or is erased when empty. */
  function Finished(s: State, i: nat): State {
    if i >= |s.workers| || !s.workers[i].Busy? then s
    else
      var k := s.workers[i].key;
      var s' := s.(workers := s.workers[i := Waiting]);
      if k !in s.lanes then s'
      else if s.lanes[k].queue != [] then
        s'.(lanes := s.lanes[k := s.lanes[k].(status := Queued)], ready := s.ready + [k])
      else s'.(lanes := s.lanes - {k})
  }

  function Next(c: Settings, s: State, a: Action): State {
    match a
    case Submit(k, id, deadline) => Submitted(c, s, k, id, deadline)
    case Take(i) => Taken(c, s, i)
    case Finish(i) => Finished(s, i)
    case Shutdown => s.(down := true)
  }

  function Run(c: Settings, s: State, actions: seq<Action>): State {
    if actions == [] then s else Next(c, Run(c, s, actions[..|actions| - 1]), actions[|actions| - 1])
  }

  // ---- The invariant ----

  /** A key is ready, once, exactly when its lane is Queued; Queued lanes hold work and Idle lanes none. */
  ghost predicate LanesFit(lanes: map<Key, Lane>, ready: seq<Key>) {
    && (forall i, j :: 0 <= i < j < |ready| ==> ready[i] != ready[j])
    && (forall k :: k in ready <==> k in lanes && lanes[k].status == Queued)
    && (forall k :: k in lanes && lanes[k].status == Queued ==> lanes[k].queue != [])
    && (forall k :: k in lanes && lanes[k].status == Idle ==> lanes[k].queue == [])
  }

  /** A lane is Running exactly when one worker is busy with it. */
  ghost predicate WorkersFit(lanes: map<Key, Lane>, workers: seq<Worker>) {
    && (forall i :: 0 <= i < |workers| && workers[i].Busy? ==> LaneAt(lanes, workers[i].key).status == Running)
    && (forall i, j :: 0 <= i < j < |workers| && workers[i].Busy? && workers[j].Busy? ==>
          workers[i].key != workers[j].key)
    && (forall k :: k in lanes && lanes[k].status == Running ==> Served(workers, k))
  }

  ghost predicate Served(workers: seq<Worker>, k: Key) {
    exists i :: 0 <= i < |workers| && workers[i].Busy? && workers[i].key == k
  }

  function Tasks(vs: seq<Verdict>): (ts: seq<Task>)
    ensures |ts| == |vs| && forall i :: 0 <= i < |vs| ==> ts[i] == vs[i].task
  {
    seq(|vs|, i requires 0 <= i < |vs| => vs[i].task)
  }

  /** A key's accepted tasks are, in order, those that left the lane and those still in it. */
  ghost predicate Accounted(lanes: map<Key, Lane>, accepted: map<Key, seq<Task>>, verdicts: map<Key, seq<Verdict>>) {
    forall k :: At(accepted, k) == Tasks(At(verdicts, k)) + LaneAt(lanes, k).queue
  }

  /** A task was skipped exactly if its deadline had passed when it reached the head. */
  ghost predicate Judged(verdicts: map<Key, seq<Verdict>>) {
    forall k, i :: k in verdicts && 0 <= i < |verdicts[k]| ==>
      verdicts[k][i].ran == !IsExpired(verdicts[k][i].task, verdicts[k][i].at)
  }

  function BusyCount(workers: seq<Worker>): (n: nat)
    ensures n <= |workers|
  {
    if workers == [] then 0
    else BusyCount(workers[..|workers| - 1]) + if workers[|workers| - 1].Busy? then 1 else 0
  }

  function Capacity(c: Settings): nat {
    if c.globalCapacity < 0 then 0 else c.globalCapacity
  }

  ghost predicate Bounded(c: Settings, s: State) {
    |s.ready| + BusyCount(s.workers) <= Capacity(c) + |s.workers| && Short(c, s.lanes)
  }

  /** Workers leave only after shutdown, and the last one leaves nothing ready. */
  ghost predicate Drained(s: State) {
    && (forall i :: 0 <= i < |s.workers| && s.workers[i] == Exited ==> s.down)
    && ((forall i :: 0 <= i < |s.workers| ==> s.workers[i] == Exited) && |s.workers| > 0 ==> s.ready == [])
  }

  ghost predicate Inv(c: Settings, s: State) {
    && LanesFit(s.lanes, s.ready) && WorkersFit(s.lanes, s.workers)
    && Accounted(s.lanes, s.accepted, s.verdicts) && Judged(s.verdicts)
    && Bounded(c, s) && Drained(s)
  }

  // ---- How one lane or one worker changes ----

  lemma ReadyAppend(lanes: map<Key, Lane>, ready: seq<Key>, k: Key, lane: Lane)
    requires LanesFit(lanes, ready) && LaneAt(lanes, k).status != Queued && lane.status == Queued && lane.queue != []
    ensures LanesFit(lanes[k := lane], ready + [k])
  {
    assert k !in ready;
    assert (ready + [k])[|ready|] == k;
    assert forall j :: j in ready + [k] <==> j in ready || j == k;
  }

  lemma LaneKept(lanes: map<Key, Lane>, ready: seq<Key>, k: Key, lane: Lane)
    requires LanesFit(lanes, ready) && LaneAt(lanes, k).status == lane.status
    requires (lane.status == Queued ==> lane.queue != []) && (lane.status == Idle ==> lane.queue == [])
    ensures LanesFit(lanes[k := lane], ready)
  {}

  lemma ReadyPop(lanes: map<Key, Lane>, ready: seq<Key>, lane: Lane)
    requires LanesFit(lanes, ready) && ready != [] && lane.status == Running
    ensures LanesFit(lanes - {ready[0]}, ready[1..]) && LanesFit(lanes[ready[0] := lane], ready[1..])
  {
    assert forall j :: j in ready[1..] <==> j in ready && j != ready[0];
  }

  lemma LaneErased(lanes: map<Key, Lane>, ready: seq<Key>, k: Key)
    requires LanesFit(lanes, ready) && LaneAt(lanes, k).status != Queued
    ensures LanesFit(lanes - {k}, ready)
  {}

  lemma SameWorkers(lanes: map<Key, Lane>, workers: seq<Worker>, k: Key, lane: Lane)
    requires WorkersFit(lanes, workers) && (LaneAt(lanes, k).status == Running <==> lane.status == Running)
    ensures WorkersFit(lanes[k := lane], workers)
    ensures lane.status != Running ==> WorkersFit(lanes - {k}, workers)
  {
    hide Served;
    assert k in lanes && lanes[k].status == Running ==> Served(workers, k);
  }

  lemma WorkerServes(workers: seq<Worker>, i: nat, w: Worker, k: Key)
    requires i < |workers|
    ensures Served(workers, k) && !(workers[i].Busy? && workers[i].key == k) ==> Served(workers[i := w], k)
    ensures w.Busy? && w.key == k ==> Served(workers[i := w], k)
  {
    var ws := workers[i := w];
    assert ws[i] == w;
    if j :| 0 <= j < |workers| && workers[j].Busy? && workers[j].key == k && j != i {
      assert ws[j] == workers[j];
    }
  }

  lemma WorkerStarts(lanes: map<Key, Lane>, workers: seq<Worker>, i: nat, lane: Lane, k: Key, t: Task)
    requires WorkersFit(lanes, workers) && i < |workers| && workers[i] == Waiting
    requires LaneAt(lanes, k).status != Running && lane.status == Running
    ensures WorkersFit(lanes[k := lane], workers[i := Busy(k, t)])
  {
    hide Served;
    var lanes' := lanes[k := lane];
    forall j | j in lanes' && lanes'[j].status == Running ensures Served(workers[i := Busy(k, t)], j) {
      WorkerServes(workers, i, Busy(k, t), j);
    }
  }

  lemma WorkerStops(lanes: map<Key, Lane>, workers: seq<Worker>, i: nat, lane: Lane, w: Worker)
    requires WorkersFit(lanes, workers) && i < |workers| && workers[i].Busy? && !w.Busy? && lane.status != Running
    ensures WorkersFit(lanes - {workers[i].key}, workers[i := w])
    ensures WorkersFit(lanes[workers[i].key := lane], workers[i := w])
  {
    hide Served;
    forall j | j in lanes && j != workers[i].key && lanes[j].status == Running ensures Served(workers[i := w], j) {
      WorkerServes(workers, i, w, j);
    }
  }

  lemma WorkerRests(lanes: map<Key, Lane>, workers: seq<Worker>, i: nat, w: Worker)
    requires WorkersFit(lanes, workers) && i < |workers| && !workers[i].Busy? && !w.Busy?
    ensures WorkersFit(lanes, workers[i := w])
  {
    hide Served;
    forall j | j in lanes && lanes[j].status == Running ensures Served(workers[i := w], j) {
      WorkerServes(workers, i, w, j);
    }
  }

  /** Only the books of one key change. */
  lemma BooksOf(s: State, s': State, k: Key)
    requires Accounted(s.lanes, s.accepted, s.verdicts)
    requires forall j :: j != k ==> LaneAt(s'.lanes, j) == LaneAt(s.lanes, j)
    requires forall j :: j != k ==> At(s'.accepted, j) == At(s.accepted, j)
    requires forall j :: j != k ==> At(s'.verdicts, j) == At(s.verdicts, j)
    requires At(s'.accepted, k) == Tasks(At(s'.verdicts, k)) + LaneAt(s'.lanes, k).queue
    ensures Accounted(s'.lanes, s'.accepted, s'.verdicts)
  {}

  lemma {:induction false} BusyCountUpdate(ws: seq<Worker>, i: nat, w: Worker)
    requires i < |ws|
    ensures BusyCount(ws[i := w]) == BusyCount(ws) - (if ws[i].Busy? then 1 else 0) + (if w.Busy? then 1 else 0)
  {
    var n := |ws| - 1;
    if i == n {
      assert ws[i := w][..n] == ws[..n];
    } else {
      assert ws[i := w][..n] == ws[..n][i := w];
      BusyCountUpdate(ws[..n], i, w);
    }
  }

  // ---- submit ----

  lemma SubmittedBounds(c: Settings, s: State, k: Key, id: nat, deadline: int)
    requires Bounded(c, s) && Drained(s)
    ensures Bounded(c, Submitted(c, s, k, id, deadline)) && Drained(Submitted(c, s, k, id, deadline))
  {}

  lemma SubmittedInv(c: Settings, s: State, k: Key, id: nat, deadline: int)
    requires Inv(c, s)
    ensures Inv(c, Submitted(c, s, k, id, deadline))
  {
    hide LanesFit;
    hide WorkersFit;
    hide Accounted;
    hide Tasks;
    hide Bounded;
    hide Drained;
    hide Judged;
    SubmittedBounds(c, s, k, id, deadline);
    var s', lane := Submitted(c, s, k, id, deadline), LaneAt(s.lanes, k);
    LanesFitAt(s.lanes, s.ready, k);
    AccountedAt(s, k);
    if ResultOf(c, s, k) != RejectedShutdown {
      SameWorkers(s.lanes, s.workers, k, LaneAt(s'.lanes, k));
      if s'.ready != s.ready {
        ReadyAppend(s.lanes, s.ready, k, LaneAt(s'.lanes, k));
      } else {
        LaneKept(s.lanes, s.ready, k, LaneAt(s'.lanes, k));
      }
      BooksOf(s, s', k);
    }
  }

  lemma LanesFitAt(lanes: map<Key, Lane>, ready: seq<Key>, k: Key)
    requires LanesFit(lanes, ready)
    ensures var lane := LaneAt(lanes, k);
      (lane.status == Idle ==> lane.queue == []) && (lane.status == Queued ==> lane.queue != [])
    ensures LaneAt(lanes, k).status == Queued <==> k in ready
  {}

  lemma AccountedAt(s: State, k: Key)
    requires Accounted(s.lanes, s.accepted, s.verdicts)
    ensures At(s.accepted, k) == Tasks(At(s.verdicts, k)) + LaneAt(s.lanes, k).queue
  {}

  // ---- The worker loop ----

  lemma {:induction false} DroppedExact(c: Settings, q: seq<Task>, ticks: nat)
    ensures var n := Dropped(c, q, ticks);
      && (forall i :: 0 <= i < n ==> IsExpired(q[i], c.clock(ticks + i)))
      && (n < |q| ==> !IsExpired(q[n], c.clock(ticks + n)))
  {
    if q != [] && IsExpired(q[0], c.clock(ticks)) {
      DroppedExact(c, q[1..], ticks + 1);
      var n := Dropped(c, q, ticks);
      forall i | 0 <= i < n ensures IsExpired(q[i], c.clock(ticks + i)) {
        if i > 0 {
          assert q[i] == q[1..][i - 1] && ticks + i == ticks + 1 + (i - 1);
        }
      }
    }
  }

  lemma LeavingJudged(c: Settings, verdicts: map<Key, seq<Verdict>>, k: Key, q: seq<Task>, ticks: nat)
    requires Judged(verdicts)
    ensures Judged(verdicts[k := At(verdicts, k) + Leaving(c, q, ticks)])
  {
    DroppedExact(c, q, ticks);
  }

  lemma LeavingSplits(c: Settings, before: seq<Verdict>, q: seq<Task>, ticks: nat)
    ensures var vs := Leaving(c, q, ticks); Tasks(before) + q == Tasks(before + vs) + q[|vs|..]
  {
    var vs := Leaving(c, q, ticks);
    assert Tasks(before + vs) == Tasks(before) + q[..|vs|];
    assert q == q[..|vs|] + q[|vs|..];
  }

  /** Taking a key whose lane still has a task in time, or none. */
  lemma TakenLane(c: Settings, s: State, i: nat)
    requires Inv(c, s) && i < |s.workers| && s.workers[i] == Waiting && s.ready != []
    ensures var s' := Taken(c, s, i);
      && LanesFit(s'.lanes, s'.ready) && WorkersFit(s'.lanes, s'.workers)
      && Accounted(s'.lanes, s'.accepted, s'.verdicts) && Judged(s'.verdicts)
  {
    hide LanesFit;
    hide WorkersFit;
    hide Accounted;
    hide Judged;
    hide Tasks;
    var k, s' := s.ready[0], Taken(c, s, i);
    LanesFitAt(s.lanes, s.ready, k);
    AccountedAt(s, k);
    var q, n := s.lanes[k].queue, Dropped(c, s.lanes[k].queue, s.ticks);
    ReadyPop(s.lanes, s.ready, Lane(if n < |q| then q[n + 1..] else [], Running));
    LeavingJudged(c, s.verdicts, k, q, s.ticks);
    LeavingSplits(c, At(s.verdicts, k), q, s.ticks);
    BooksOf(s, s', k);
    if n < |q| {
      WorkerStarts(s.lanes, s.workers, i, Lane(q[n + 1..], Running), k, q[n]);
    } else {
      SameWorkers(s.lanes, s.workers, k, Lane([], Idle));
    }
  }

  ghost predicate Short(c: Settings, lanes: map<Key, Lane>) {
    forall k :: k in lanes ==> |lanes[k].queue| <= if c.laneCapacity < 0 then 0 else c.laneCapacity
  }

  lemma ShortStep(c: Settings, lanes: map<Key, Lane>, k: Key, lane: Lane)
    requires Short(c, lanes) && |lane.queue| <= |LaneAt(lanes, k).queue|
    ensures Short(c, lanes - {k}) && Short(c, lanes[k := lane])
  {}

  lemma TakenShort(c: Settings, s: State, i: nat)
    requires Short(c, s.lanes)
    ensures Short(c, Taken(c, s, i).lanes)
  {
    hide Leaving;
    hide Dropped;
    hide Short;
    if s.ready != [] {
      ShortStep(c, s.lanes, s.ready[0], LaneAt(Taken(c, s, i).lanes, s.ready[0]));
    }
  }

  /** A waiting worker that finds a key ready does not leave. */
  lemma TakenWorkers(c: Settings, s: State, i: nat)
    requires i < |s.workers| && s.workers[i] == Waiting && s.ready != []
    ensures var s' := Taken(c, s, i); |s'.workers| == |s.workers| && s'.workers[i] != Exited
    ensures var s' := Taken(c, s, i);
      s'.workers == s.workers[i := s'.workers[i]] && |s'.ready| == |s.ready| - 1 && s'.down == s.down
  {
    hide Leaving;
    hide Dropped;
  }

  lemma TakenBounds(c: Settings, s: State, i: nat)
    requires Bounded(c, s) && Drained(s) && i < |s.workers| && s.workers[i] == Waiting && s.ready != []
    ensures Bounded(c, Taken(c, s, i)) && Drained(Taken(c, s, i))
  {
    hide Taken;
    hide Short;
    TakenShort(c, s, i);
    TakenWorkers(c, s, i);
    BusyCountUpdate(s.workers, i, Taken(c, s, i).workers[i]);
  }

  lemma TakenInv(c: Settings, s: State, i: nat)
    requires Inv(c, s)
    ensures Inv(c, Taken(c, s, i))
  {
    hide LanesFit;
    hide WorkersFit;
    hide Accounted;
    hide Judged;
    hide Leaving;
    hide Dropped;
    if i < |s.workers| && s.workers[i] == Waiting {
      if s.ready != [] {
        TakenLane(c, s, i);
        TakenBounds(c, s, i);
      } else {
        WorkerRests(s.lanes, s.workers, i, Exited);
        BusyCountUpdate(s.workers, i, Exited);
      }
    }
  }

  lemma FinishedInv(c: Settings, s: State, i: nat)
    requires Inv(c, s)
    ensures Inv(c, Finished(s, i))
  {
    hide LanesFit;
    hide WorkersFit;
    hide Accounted;
    hide Judged;
    hide Tasks;
    if i < |s.workers| && s.workers[i].Busy? {
      var k, s' := s.workers[i].key, Finished(s, i);
      RunningAt(s.lanes, s.workers, i);
      AccountedAt(s, k);
      BusyCountUpdate(s.workers, i, Waiting);
      WorkerStops(s.lanes, s.workers, i, s.lanes[k].(status := Queued), Waiting);
      if s.lanes[k].queue != [] {
        ReadyAppend(s.lanes, s.ready, k, s.lanes[k].(status := Queued));
      } else {
        LaneErased(s.lanes, s.ready, k);
      }
      BooksOf(s, s', k);
      assert s'.workers[i] == Waiting;
    }
  }

  lemma RunningAt(lanes: map<Key, Lane>, workers: seq<Worker>, i: nat)
    requires WorkersFit(lanes, workers) && i < |workers| && workers[i].Busy?
    ensures workers[i].key in lanes && lanes[workers[i].key].status == Running
  {}

  // ---- Every run ----

  lemma InitialInv(c: Settings, workerCount: nat)
    ensures Inv(c, Initial(workerCount))
  {
    NobodyBusy(Initial(workerCount).workers);
  }

  lemma {:induction false} NobodyBusy(ws: seq<Worker>)
    requires forall i :: 0 <= i < |ws| ==> !ws[i].Busy?
    ensures BusyCount(ws) == 0
  {
    if ws != [] {
      NobodyBusy(ws[..|ws| - 1]);
    }
  }

  lemma NextInv(c: Settings, s: State, a: Action)
    requires Inv(c, s)
    ensures Inv(c, Next(c, s, a))
  {
    hide LanesFit;
    hide WorkersFit;
    hide Accounted;
    hide Judged;
    hide Taken;
    hide Submitted;
    hide Finished;
    match a
    case Submit(k, id, deadline) => SubmittedInv(c, s, k, id, deadline);
    case Take(i) => TakenInv(c, s, i);
    case Finish(i) => FinishedInv(c, s, i);
    case Shutdown =>
  }

  lemma {:induction false} RunInv(c: Settings, s: State, actions: seq<Action>)
    requires Inv(c, s)
    ensures Inv(c, Run(c, s, actions))
  {
    hide Inv;
    hide Next;
    if actions != [] {
      RunInv(c, s, actions[..|actions| - 1]);
      NextInv(c, Run(c, s, actions[..|actions| - 1]), actions[|actions| - 1]);
    }
  }

  /** At most one worker runs a key, and only while its lane is neither ready nor idle. */
  lemma OneWorkerPerKey(c: Settings, workerCount: nat, actions: seq<Action>)
    ensures var s := Run(c, Initial(workerCount), actions);
      && (forall i, j :: 0 <= i < j < |s.workers| && s.workers[i].Busy? && s.workers[j].Busy? ==>
            s.workers[i].key != s.workers[j].key)
      && (forall i :: 0 <= i < |s.workers| && s.workers[i].Busy? ==> s.workers[i].key !in s.ready)
      && (forall i, j :: 0 <= i < j < |s.ready| ==> s.ready[i] != s.ready[j])
      && (forall k :: k in s.ready <==> k in s.lanes && s.lanes[k].status == Queued)
      && (forall k :: k in s.lanes && s.lanes[k].status == Queued ==> s.lanes[k].queue != [])
      && (forall k :: k in s.lanes && s.lanes[k].status == Idle ==> s.lanes[k].queue == [])
  {
    InitialInv(c, workerCount);
    RunInv(c, Initial(workerCount), actions);
  }

  /** The tasks a key ran: those that left its lane and were not skipped. */
  function Ran(vs: seq<Verdict>): seq<Task> {
    if vs == [] then []
    else Ran(vs[..|vs| - 1]) + if vs[|vs| - 1].ran then [vs[|vs| - 1].task] else []
  }

  /** Its tasks in order of acceptance, without those that had passed their deadline. */
  function InTime(ts: seq<Task>, at: seq<int>): seq<Task>
    requires |ts| == |at|
  {
    if ts == [] then []
    else
      var last, now := ts[|ts| - 1], at[|ts| - 1];
      InTime(ts[..|ts| - 1], at[..|ts| - 1])
      + if last.deadline > 0 && now - last.submitAt > last.deadline then [] else [last]
  }

  function Times(vs: seq<Verdict>): (at: seq<int>)
    ensures |at| == |vs| && forall i :: 0 <= i < |vs| ==> at[i] == vs[i].at
  {
    seq(|vs|, i requires 0 <= i < |vs| => vs[i].at)
  }

  lemma {:induction false} RanAreInTime(vs: seq<Verdict>)
    requires forall i :: 0 <= i < |vs| ==> vs[i].ran == !IsExpired(vs[i].task, vs[i].at)
    ensures Ran(vs) == InTime(Tasks(vs), Times(vs))
  {
    if vs != [] {
      var before := vs[..|vs| - 1];
      RanAreInTime(before);
      assert Tasks(before) == Tasks(vs)[..|vs| - 1] && Times(before) == Times(vs)[..|vs| - 1];
    }
  }

  /**
    Across every erasure and re-creation of its lane, a key runs its accepted
    tasks in the order they were accepted, leaving out exactly those whose
    deadline had passed when they came to the front; the rest is still queued.
  */
  lemma KeyRunsInOrder(c: Settings, workerCount: nat, actions: seq<Action>, k: Key)
    ensures var s := Run(c, Initial(workerCount), actions); var vs := At(s.verdicts, k); var gone := |vs|;
      && gone <= |At(s.accepted, k)|
      && Ran(vs) == InTime(At(s.accepted, k)[..gone], Times(vs))
      && LaneAt(s.lanes, k).queue == At(s.accepted, k)[gone..]
  {
    InitialInv(c, workerCount);
    RunInv(c, Initial(workerCount), actions);
    var s := Run(c, Initial(workerCount), actions);
    var vs := At(s.verdicts, k);
    assert At(s.accepted, k) == Tasks(vs) + LaneAt(s.lanes, k).queue;
    assert At(s.accepted, k)[..|vs|] == Tasks(vs);
    RanAreInTime(vs);
  }

  /** Requeueing ignores the capacity; the true bound counts the workers too. */
  lemma ReadyBounded(c: Settings, workerCount: nat, actions: seq<Action>)
    ensures var s := Run(c, Initial(workerCount), actions);
      |s.ready| + BusyCount(s.workers) <= Capacity(c) + workerCount
  {
    InitialInv(c, workerCount);
    RunInv(c, Initial(workerCount), actions);
    WorkersStay(c, Initial(workerCount), actions);
  }

  lemma NextWorkers(c: Settings, s: State, a: Action)
    ensures |Next(c, s, a).workers| == |s.workers|
  {
    hide Leaving;
    hide Dropped;
  }

  lemma {:induction false} WorkersStay(c: Settings, s: State, actions: seq<Action>)
    ensures |Run(c, s, actions).workers| == |s.workers|
  {
    hide Next;
    if actions != [] {
      WorkersStay(c, s, actions[..|actions| - 1]);
      NextWorkers(c, Run(c, s, actions[..|actions| - 1]), actions[|actions| - 1]);
    }
  }

  /** Once all workers have left, every accepted task has run or expired. */
  lemma ShutdownDrains(c: Settings, workerCount: nat, actions: seq<Action>, k: Key)
    requires workerCount > 0
    requires var s := Run(c, Initial(workerCount), actions); forall i :: 0 <= i < |s.workers| ==> s.workers[i] == Exited
    ensures var s := Run(c, Initial(workerCount), actions);
      && s.down && LaneAt(s.lanes, k).queue == [] && Tasks(At(s.verdicts, k)) == At(s.accepted, k)
  {
    InitialInv(c, workerCount);
    RunInv(c, Initial(workerCount), actions);
    WorkersStay(c, Initial(workerCount), actions);
    var s := Run(c, Initial(workerCount), actions);
    assert s.workers[0] == Exited;
    assert !Served(s.workers, k);
    AccountedAt(s, k);
  }

  // ---- Fairness ----

  lemma NextQueues(c: Settings, s: State, a: Action)
    ensures var s' := Next(c, s, a); s.popped <= s'.popped && s.popped + s.ready <= s'.popped + s'.ready
  {
    hide Leaving;
    hide Dropped;
    if a.Take? && s.ready != [] {
      assert s.popped + s.ready == (s.popped + [s.ready[0]]) + s.ready[1..];
    }
  }

  /** Keys leave the ready queue in the order they entered it. */
  lemma {:induction false} RunQueues(c: Settings, s: State, actions: seq<Action>)
    ensures var s' := Run(c, s, actions); s.popped <= s'.popped && s.popped + s.ready <= s'.popped + s'.ready
  {
    hide Next;
    if actions != [] {
      RunQueues(c, s, actions[..|actions| - 1]);
      NextQueues(c, Run(c, s, actions[..|actions| - 1]), actions[|actions| - 1]);
    }
  }

  /**
    A key at position p of the ready queue is taken as the (p+1)-st from here,
    and until then every other key is taken at most once.
  */
  lemma FairDispatch(c: Settings, s: State, actions: seq<Action>, p: nat)
    requires Inv(c, s) && p < |s.ready|
    ensures s.popped <= Run(c, s, actions).popped
    ensures var taken := Run(c, s, actions).popped[|s.popped|..];
      && (|taken| > p ==> taken[p] == s.ready[p])
      && (|taken| <= p ==> forall i, j :: 0 <= i < j < |taken| ==> taken[i] != taken[j])
      && (|taken| <= p ==> s.ready[p] !in taken)
  {
    RunQueues(c, s, actions);
    var s' := Run(c, s, actions);
    var taken := s'.popped[|s.popped|..];
    forall i | 0 <= i < |taken| && i < |s.ready| ensures taken[i] == s.ready[i] {
      assert (s'.popped + s'.ready)[|s.popped| + i] == (s.popped + s.ready)[|s.popped| + i];
    }
  }

  // ---- The executor as the program writes it ----

  /** Each method is one region under the executor's lock. */
  class SessionSerialExecutor {
    const settings: Settings
    var lanes: map<Key, Lane>
    var ready: seq<Key>
    var workers: seq<Worker>
    var shuttingDown: bool
    var ticks: nat
    var droppedFull: nat
    var droppedShutdown: nat
    ghost var accepted: map<Key, seq<Task>>
    ghost var verdicts: map<Key, seq<Verdict>>
    ghost var popped: seq<Key>

    ghost function View(): State
      reads this
    {
      State(lanes, ready, workers, shuttingDown, ticks, accepted, verdicts, popped)
    }

    constructor (settings: Settings, workerCount: nat)
      ensures this.settings == settings && View() == Initial(workerCount)
    {
      this.settings := settings;
      lanes, ready, workers := map[], [], seq(workerCount, i => Waiting);
      shuttingDown, ticks, droppedFull, droppedShutdown := false, 0, 0, 0;
      accepted, verdicts, popped := map[], map[], [];
    }

    method NowMs() returns (now: int)
      modifies `ticks
      ensures now == settings.clock(old(ticks)) && ticks == old(ticks) + 1
    {
      now := settings.clock(ticks);
      ticks := ticks + 1;
    }

    method Submit(key: Key, id: nat, deadline: int) returns (result: SubmitResult)
      modifies this
      ensures View() == Submitted(settings, old(View()), key, id, deadline)
      ensures result == ResultOf(settings, old(View()), key)
      ensures droppedFull == old(droppedFull) + (if result == RejectedFull then 1 else 0)
      ensures droppedShutdown == old(droppedShutdown) + (if result == RejectedShutdown then 1 else 0)
    {
      if shuttingDown {
        droppedShutdown := droppedShutdown + 1;
        return RejectedShutdown;
      }
      if key !in lanes {
        lanes := lanes[key := Lane([], Idle)];
      }
      var lane := lanes[key];
      assert lanes == old(lanes)[key := lane] && lane == LaneAt(old(lanes), key);
      if |lane.queue| >= settings.laneCapacity {
        droppedFull := droppedFull + 1;
        return RejectedFull;
      }
      if lane.status == Idle && |ready| >= settings.globalCapacity {
        droppedFull := droppedFull + 1;
        return RejectedFull;
      }
      var now := NowMs();
      var p := Task(id, now, deadline);
      accepted := accepted[key := At(accepted, key) + [p]];
      lane := lane.(queue := lane.queue + [p]);
      if lane.status == Idle {
        lane := lane.(status := Queued);
        ready := ready + [key];
      }
      lanes := lanes[key := lane];
      result := Accepted;
    }

    /** Skips the expired tasks at the head of a queue. */
    method SkipExpired(queue: seq<Task>) returns (n: nat)
      modifies `ticks
      ensures n == Dropped(settings, queue, old(ticks)) && ticks == old(ticks) + |Leaving(settings, queue, old(ticks))|
    {
      n := 0;
      assert queue[0..] == queue;
      while n < |queue|
        invariant n <= |queue| && ticks == old(ticks) + n
        invariant Dropped(settings, queue, old(ticks)) == n + Dropped(settings, queue[n..], ticks)
      {
        assert queue[n..][0] == queue[n] && queue[n..][1..] == queue[n + 1..];
        var now := NowMs();
        if queue[n].deadline > 0 && now - queue[n].submitAt > queue[n].deadline {
          n := n + 1;
          continue;
        }
        break;
      }
    }

    /** Skips what has expired and hands the next task to the worker, or erases the lane. */
    method StartNext(i: nat, key: Key) returns (work: bool)
      requires i < |workers| && workers[i] == Waiting && key in lanes
      modifies `lanes, `workers, `ticks, `verdicts
      ensures var q, n := old(lanes[key].queue), Dropped(settings, old(lanes[key].queue), old(ticks));
        && verdicts == old(verdicts)[key := At(old(verdicts), key) + Leaving(settings, q, old(ticks))]
        && ticks == old(ticks) + |Leaving(settings, q, old(ticks))| && work == (n < |q|)
        && lanes == (if work then old(lanes)[key := Lane(q[n + 1..], Running)] else old(lanes) - {key})
        && workers == (if work then old(workers)[i := Busy(key, q[n])] else old(workers))
    {
      hide Dropped;
      hide Leaving;
      var lane := lanes[key].(status := Running);
      verdicts := verdicts[key := At(verdicts, key) + Leaving(settings, lane.queue, ticks)];
      var n := SkipExpired(lane.queue);
      if n == |lane.queue| {
        lanes := lanes - {key};
        return false;
      }
      workers := workers[i := Busy(key, lane.queue[n])];
      lanes := lanes[key := lane.(queue := lane.queue[n + 1..])];
      work := true;
    }

    /** A worker takes the front key; `exit` says that it leaves for good. */
    method TakeWork(i: nat) returns (exit: bool, work: bool)
      requires i < |workers| && workers[i] == Waiting
      modifies this
      ensures View() == Taken(settings, old(View()), i)
      ensures exit == (workers[i] == Exited) && work == workers[i].Busy?
    {
      hide Dropped;
      hide Leaving;
      exit, work := false, false;
      if ready == [] {
        if shuttingDown {
          workers := workers[i := Exited];
          exit := true;
        }
        return;
      }
      var key := ready[0];
      ready := ready[1..];
      popped := popped + [key];
      if key !in lanes {
        return;
      }
      work := StartNext(i, key);
    }

    method FinishWork(i: nat)
      requires i < |workers| && workers[i].Busy?
      modifies this
      ensures View() == Finished(old(View()), i)
    {
      var key := workers[i].key;
      workers := workers[i := Waiting];
      if key in lanes {
        if lanes[key].queue != [] {
          lanes := lanes[key := lanes[key].(status := Queued)];
          ready := ready + [key];
        } else {
          lanes := lanes - {key};
        }
      }
    }

    method BeginShutdown()
      modifies `shuttingDown
      ensures View() == Next(settings, old(View()), Shutdown)
    {
      if !shuttingDown {
        shuttingDown := true;
      }
    }
  }
}
