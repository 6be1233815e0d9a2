/**
  The bounded send path of a TCP connection, until it disconnects: senders on
  any thread reserve bytes by compare-and-swap, the loop thread writes, buffers
  and releases.  A state machine with one action per atomic step, run in any
  interleaving; the kernel accepts any part of a write or refuses it.
*/
module Backpressure {

  /** setWriteBufferLimits, and the largest frame the output codec agrees to encode. */
  datatype Limits = Limits(pause: nat, resume: nat, hard: nat, maxEncodable: nat)
  {
    /** The limits the connection accepts; it ignores any others. */
    predicate Valid() {
      resume < pause && resume < hard
    }
  }

  const DEFAULT_LIMITS := Limits(16 * 1024 * 1024, 8 * 1024 * 1024, 64 * 1024 * 1024, 64 * 1024 * 1024)

  /** The bytes of one send; at least one byte is reserved even for an empty message. */
  datatype Frame = Frame(len: nat)
  {
    function Size(): nat {
      if len == 0 then 1 else len
    }
  }

  /** A sender between its load of the counter and the end of its CAS loop. */
  datatype Trying = Trying(frame: Frame, seen: int)

  datatype Phase =
    | Resting
    | Armed(frame: Frame)   // low-water check done, write not yet tried
    | Rest(bytes: nat)      // bytes the write left over, not yet in the buffer

  /**
    `pending` holds the reserved frames whose loop task has not begun.  Three fields
    are history: `leaked` counts bytes reserved for good, `told` says a sender was
    answered Accepted + PauseProducer since the last pressure callback, and
    `lost` that the counter fell to the low-water mark without such a sender
    being called.
  */
  datatype State = State(
    outstanding: int, armed: bool, buffer: int, writing: bool, reading: bool,
    trying: map<nat, Trying>, pending: seq<Frame>, phase: Phase,
    leaked: nat, told: bool, lost: bool)

  const CONNECTED := State(0, false, 0, false, true, map[], [], Resting, 0, false, false)

  datatype WriteResult = Wrote(n: nat) | Blocked | Fault

  datatype Action =
    | Load(sender: nat, len: nat)
    | CompareExchange(sender: nat, spurious: bool)
    | Begin(k: nat)
    | Write(result: WriteResult)
    | Append
    | Flush(n: nat)

  // ---- The atomic steps ----

  /** releaseOutstanding: subtract, and call back when an armed counter falls to the low-water mark. */
  function Released(l: Limits, s: State, n: nat): State {
    var before := s.outstanding;
    var after := before - n;
    var fell := before > l.resume && after <= l.resume;
    if s.armed && fell then s.(outstanding := after, armed := false, told := false)
    else s.(outstanding := after, lost := s.lost || (s.told && fell))
  }

  /** A frame beyond the hard limit is refused at once; otherwise the CAS loop starts from the value loaded. */
  function Loaded(l: Limits, s: State, sender: nat, len: nat): State {
    if sender in s.trying || Frame(len).Size() > l.hard then s
    else s.(trying := s.trying[sender := Trying(Frame(len), s.outstanding)])
  }

  datatype Disposition = Accepted | WouldBlock | TooLarge

  datatype SendOutcome = SendOutcome(disposition: Disposition, pauseProducer: bool)

  datatype Turn = Again | Done(outcome: SendOutcome)

  /** What one turn of the CAS loop tells the sender, if it ends there. */
  function AnswerOf(l: Limits, s: State, sender: nat, spurious: bool): Turn
    requires sender in s.trying
  {
    var t := s.trying[sender];
    if t.seen > l.hard - t.frame.Size() then Done(SendOutcome(WouldBlock, true))
    else if spurious || s.outstanding != t.seen then Again
    else Done(SendOutcome(Accepted, t.seen + t.frame.Size() > l.pause))
  }

  /** One turn of the CAS loop: give up, reserve, or reload after a failed exchange. */
  function Exchanged(l: Limits, s: State, sender: nat, spurious: bool): State {
    if sender !in s.trying then s
    else
      var t := s.trying[sender];
      if t.seen > l.hard - t.frame.Size() then s.(trying := s.trying - {sender})
      else if spurious || s.outstanding != t.seen then
        s.(trying := s.trying[sender := t.(seen := s.outstanding)])
      else
        var after := t.seen + t.frame.Size();
        s.(outstanding := after, pending := s.pending + [t.frame], trying := s.trying - {sender},
           told := s.told || AnswerOf(l, s, sender, spurious) == Done(SendOutcome(Accepted, true)))
  }

  function Without(fs: seq<Frame>, k: nat): seq<Frame>
    requires k < |fs|
  {
    fs[..k] + fs[k + 1..]
  }

  /** sendInLoop up to the write: a frame the codec refuses is released, others arm the low-water check. */
  function Begun(l: Limits, s: State, k: nat): State {
    if s.phase != Resting || k >= |s.pending| then s
    else
      var f, s' := s.pending[k], s.(pending := Without(s.pending, k));
      if f.Size() > l.maxEncodable then Released(l, s', f.Size())
      else s'.(armed := s.armed || s.outstanding > l.resume, phase := Armed(f))
  }

  function Leftover(s: State, f: Frame): State {
    if f.len > 0 then s.(phase := Rest(f.len)) else s.(phase := Resting, leaked := s.leaked + f.Size())
  }

  /** The direct write, tried only when nothing is buffered; a broken pipe drops the frame. */
  function Written(l: Limits, s: State, result: WriteResult): State {
    if !s.phase.Armed? then s
    else
      var f := s.phase.frame;
      if s.writing || s.buffer != 0 then Leftover(s, f)
      else match result
        case Wrote(n) =>
          if n > f.len then s
          else if n == f.len then Released(l, s, f.Size()).(phase := Resting)
          else Released(l, s, n).(phase := Rest(f.len - n))
        case Blocked => Leftover(s, f)
        case Fault => s.(phase := Resting, leaked := s.leaked + f.Size())
  }

  /** Buffers the leftover bytes and stops reading from a peer that lets them pile up. */
  function Appended(l: Limits, s: State): State {
    if !s.phase.Rest? then s
    else
      var buffer := s.buffer + s.phase.bytes;
      s.(buffer := buffer, writing := true, phase := Resting, reading := s.reading && buffer < l.pause)
  }

  /** handleWrite after the kernel took n bytes. */
  function Flushed(l: Limits, s: State, n: nat): State {
    if s.phase != Resting || !s.writing || n == 0 || n > s.buffer then s
    else
      var s' := Released(l, s.(buffer := s.buffer - n), n);
      s'.(writing := s'.buffer != 0, reading := s.reading || s'.buffer <= l.resume)
  }

  function Next(l: Limits, s: State, a: Action): State {
    match a
    case Load(sender, len) => Loaded(l, s, sender, len)
    case CompareExchange(sender, spurious) => Exchanged(l, s, sender, spurious)
    case Begin(k) => Begun(l, s, k)
    case Write(result) => Written(l, s, result)
    case Append => Appended(l, s)
    case Flush(n) => Flushed(l, s, n)
  }

  function Run(l: Limits, actions: seq<Action>): State {
    if actions == [] then CONNECTED else Next(l, Run(l, actions[..|actions| - 1]), actions[|actions| - 1])
  }

  // ---- Exact accounting ----

  function Bytes(fs: seq<Frame>): nat {
    if fs == [] then 0 else fs[0].Size() + Bytes(fs[1..])
  }

  function InHand(p: Phase): nat {
    match p
    case Resting => 0
    case Armed(f) => f.Size()
    case Rest(n) => n
  }

  ghost predicate Exact(l: Limits, s: State) {
    && s.outstanding == s.buffer + Bytes(s.pending) + InHand(s.phase) + s.leaked
    && 0 <= s.outstanding <= l.hard && 0 <= s.buffer && TryingFits(l, s.trying)
  }

  ghost predicate TryingFits(l: Limits, trying: map<nat, Trying>) {
    forall t :: t in trying ==> 0 <= trying[t].seen && trying[t].frame.Size() <= l.hard
  }

  lemma TryingStep(l: Limits, trying: map<nat, Trying>, sender: nat, t: Trying)
    requires TryingFits(l, trying)
    ensures TryingFits(l, trying - {sender})
    ensures sender in trying ==> 0 <= trying[sender].seen && trying[sender].frame.Size() <= l.hard
    ensures 0 <= t.seen && t.frame.Size() <= l.hard ==> TryingFits(l, trying[sender := t])
  {}

  /** Buffered bytes and the two flags of the channel. */
  ghost predicate Flow(l: Limits, s: State) {
    && (s.writing <==> s.buffer > 0) && (s.phase.Rest? ==> s.phase.bytes > 0)
    && (!s.reading ==> s.buffer > l.resume) && (s.reading ==> s.buffer < l.pause)
    && (s.armed ==> s.outstanding > l.resume)
  }

  lemma {:induction false} BytesAppend(fs: seq<Frame>, f: Frame)
    ensures Bytes(fs + [f]) == Bytes(fs) + f.Size()
  {
    if fs != [] {
      assert (fs + [f])[1..] == fs[1..] + [f];
      BytesAppend(fs[1..], f);
    }
  }

  lemma {:induction false} BytesWithout(fs: seq<Frame>, k: nat)
    requires k < |fs|
    ensures Bytes(fs) == Bytes(Without(fs, k)) + fs[k].Size()
  {
    if k == 0 {
      assert Without(fs, 0) == fs[1..];
    } else {
      assert Without(fs, k)[1..] == Without(fs[1..], k - 1);
      BytesWithout(fs[1..], k - 1);
    }
  }

  /** When every sender told to pause is certain to be called back. */
  predicate SignalSafe(l: Limits) {
    l.hard <= l.pause || (2 * l.resume <= l.pause && l.hard <= l.maxEncodable)
  }

  /** A sender waits only while the counter is high and a future fall is sure to be noticed. */
  ghost predicate Watched(l: Limits, s: State) {
    && !s.lost
    && (!s.armed ==> s.outstanding - Bytes(s.pending) <= l.resume)
    && (s.told ==> l.pause < l.hard && s.outstanding > l.resume && (s.armed || Bytes(s.pending) > l.resume))
  }

  lemma ReservedExact(l: Limits, s: State, s': State, f: Frame)
    requires Exact(l, s) && s.outstanding + f.Size() <= l.hard && TryingFits(l, s'.trying)
    requires s'.outstanding == s.outstanding + f.Size() && s'.pending == s.pending + [f]
    requires s'.buffer == s.buffer && s'.phase == s.phase && s'.leaked == s.leaked
    ensures Exact(l, s')
  {
    hide Bytes;
    hide TryingFits;
    BytesAppend(s.pending, f);
  }

  lemma ExchangedExact(l: Limits, s: State, sender: nat, spurious: bool)
    requires l.Valid() && Exact(l, s) && Flow(l, s)
    ensures var s' := Exchanged(l, s, sender, spurious); Exact(l, s') && Flow(l, s')
  {
    hide Bytes;
    hide TryingFits;
    if sender in s.trying {
      var t, s' := s.trying[sender], Exchanged(l, s, sender, spurious);
      TryingStep(l, s.trying, sender, t.(seen := s.outstanding));
      if t.seen <= l.hard - t.frame.Size() && !spurious && s.outstanding == t.seen {
        ReservedExact(l, s, s', t.frame);
      }
    }
  }

  lemma ExchangedWatched(l: Limits, s: State, sender: nat, spurious: bool)
    requires l.Valid() && Exact(l, s) && Flow(l, s) && SignalSafe(l) && Watched(l, s)
    ensures Watched(l, Exchanged(l, s, sender, spurious))
  {
    hide Bytes;
    hide TryingFits;
    if sender in s.trying {
      BytesAppend(s.pending, s.trying[sender].frame);
    }
  }

  /** A release takes its bytes off the counter and leaves the check armed only above the resume mark. */
  lemma ReleasedShape(l: Limits, s: State, n: nat)
    requires s.armed ==> s.outstanding > l.resume
    ensures var s' := Released(l, s, n);
      && s' == s.(outstanding := s.outstanding - n, armed := s'.armed, told := s'.told, lost := s'.lost)
      && (s'.armed ==> s'.outstanding > l.resume)
  {}

  lemma BegunExact(l: Limits, s: State, k: nat)
    requires l.Valid() && Exact(l, s) && Flow(l, s)
    ensures var s' := Begun(l, s, k); Exact(l, s') && Flow(l, s')
  {
    hide Bytes;
    hide TryingFits;
    hide Released;
    hide Without;
    if k < |s.pending| {
      BytesWithout(s.pending, k);
      ReleasedShape(l, s.(pending := Without(s.pending, k)), s.pending[k].Size());
    }
  }

  lemma BegunWatched(l: Limits, s: State, k: nat)
    requires l.Valid() && Exact(l, s) && Flow(l, s) && SignalSafe(l) && Watched(l, s)
    ensures Watched(l, Begun(l, s, k))
  {
    hide Bytes;
    hide TryingFits;
    if k < |s.pending| {
      BytesWithout(s.pending, k);
    }
  }

  lemma WrittenExact(l: Limits, s: State, result: WriteResult)
    requires l.Valid() && Exact(l, s) && Flow(l, s)
    ensures var s' := Written(l, s, result); Exact(l, s') && Flow(l, s')
  {
    hide Bytes;
    hide TryingFits;
    hide Released;
    if s.phase.Armed? {
      ReleasedShape(l, s, s.phase.frame.Size());
      if result.Wrote? {
        ReleasedShape(l, s, result.n);
      }
    }
  }

  lemma WrittenWatched(l: Limits, s: State, result: WriteResult)
    requires l.Valid() && Exact(l, s) && Flow(l, s) && SignalSafe(l) && Watched(l, s)
    ensures Watched(l, Written(l, s, result))
  {
    hide Bytes;
    hide TryingFits;
  }

  lemma FlushedExact(l: Limits, s: State, n: nat)
    requires l.Valid() && Exact(l, s) && Flow(l, s)
    ensures var s' := Flushed(l, s, n); Exact(l, s') && Flow(l, s')
  {
    hide Bytes;
    hide TryingFits;
  }

  lemma FlushedWatched(l: Limits, s: State, n: nat)
    requires l.Valid() && Exact(l, s) && Flow(l, s) && SignalSafe(l) && Watched(l, s)
    ensures Watched(l, Flushed(l, s, n))
  {
    hide Bytes;
    hide TryingFits;
  }

  lemma NextExact(l: Limits, s: State, a: Action)
    requires l.Valid() && Exact(l, s) && Flow(l, s)
    ensures Exact(l, Next(l, s, a)) && Flow(l, Next(l, s, a))
  {
    hide Bytes;
    hide TryingFits;
    hide Exchanged;
    hide Begun;
    hide Written;
    hide Flushed;
    match a
    case Load(sender, len) => TryingStep(l, s.trying, sender, Trying(Frame(len), s.outstanding));
    case CompareExchange(sender, spurious) => ExchangedExact(l, s, sender, spurious);
    case Begin(k) => BegunExact(l, s, k);
    case Write(result) => WrittenExact(l, s, result);
    case Append =>
    case Flush(n) => FlushedExact(l, s, n);
  }

  lemma NextWatched(l: Limits, s: State, a: Action)
    requires l.Valid() && Exact(l, s) && Flow(l, s) && SignalSafe(l) && Watched(l, s)
    ensures Watched(l, Next(l, s, a))
  {
    hide Bytes;
    hide TryingFits;
    hide Exchanged;
    hide Begun;
    hide Written;
    hide Flushed;
    match a
    case Load(sender, len) =>
    case CompareExchange(sender, spurious) => ExchangedWatched(l, s, sender, spurious);
    case Begin(k) => BegunWatched(l, s, k);
    case Write(result) => WrittenWatched(l, s, result);
    case Append =>
    case Flush(n) => FlushedWatched(l, s, n);
  }

  /** Every atomic step keeps the books, and with safe limits loses no signal. */
  lemma {:induction false} RunKeeps(l: Limits, actions: seq<Action>)
    requires l.Valid()
    ensures var s := Run(l, actions); Exact(l, s) && Flow(l, s) && (SignalSafe(l) ==> Watched(l, s))
  {
    hide Next;
    if actions != [] {
      var s, a := Run(l, actions[..|actions| - 1]), actions[|actions| - 1];
      RunKeeps(l, actions[..|actions| - 1]);
      NextExact(l, s, a);
      if SignalSafe(l) {
        NextWatched(l, s, a);
      }
    }
  }

  /**
    Under any interleaving the counter covers exactly the buffered bytes, the
    reservations still queued, the bytes in hand and those lost to faults; it
    never passes the hard limit and never goes below zero.  Reading is off only
    while more than the resume mark is buffered, on only below the pause mark, and
    the low-water check is armed only while the counter is above the resume mark.
  */
  lemma OutstandingIsExact(l: Limits, actions: seq<Action>)
    requires l.Valid()
    ensures var s := Run(l, actions);
      && s.buffer + Bytes(s.pending) <= s.outstanding <= l.hard
      && s.outstanding == s.buffer + Bytes(s.pending) + InHand(s.phase) + s.leaked
      && 0 <= s.buffer && (s.reading ==> s.buffer < l.pause) && (!s.reading ==> s.buffer > l.resume)
      && (s.armed ==> s.outstanding > l.resume)
  {
    RunKeeps(l, actions);
  }

  /** No fault, no empty message so far. */
  ghost predicate Clean(s: State) {
    && s.leaked == 0 && TryingFull(s.trying) && PendingFull(s.pending) && (s.phase.Armed? ==> s.phase.frame.len > 0)
  }

  ghost predicate TryingFull(trying: map<nat, Trying>) {
    forall t :: t in trying ==> trying[t].frame.len > 0
  }

  ghost predicate PendingFull(pending: seq<Frame>) {
    forall i :: 0 <= i < |pending| ==> pending[i].len > 0
  }

  lemma FullStep(trying: map<nat, Trying>, pending: seq<Frame>, sender: nat, t: Trying, k: nat)
    requires TryingFull(trying) && PendingFull(pending) && t.frame.len > 0
    ensures TryingFull(trying - {sender}) && TryingFull(trying[sender := t]) && PendingFull(pending + [t.frame])
    ensures k < |pending| ==> pending[k].len > 0 && PendingFull(Without(pending, k))
  {}

  lemma TryingFullAt(trying: map<nat, Trying>, t: nat)
    requires TryingFull(trying) && t in trying
    ensures trying[t].frame.len > 0
  {}

  lemma WrittenClean(l: Limits, s: State, result: WriteResult)
    requires Clean(s) && result != Fault
    ensures Clean(Written(l, s, result))
  {
    hide TryingFull;
    hide PendingFull;
  }

  lemma NextClean(l: Limits, s: State, a: Action)
    requires Clean(s) && a != Write(Fault) && (a.Load? ==> a.len > 0)
    ensures Clean(Next(l, s, a))
  {
    hide TryingFull;
    hide PendingFull;
    hide Without;
    hide Written;
    match a
    case Load(sender, len) => FullStep(s.trying, s.pending, sender, Trying(Frame(len), s.outstanding), 0);
    case CompareExchange(sender, spurious) =>
      if sender in s.trying {
        TryingFullAt(s.trying, sender);
        FullStep(s.trying, s.pending, sender, s.trying[sender].(seen := s.outstanding), 0);
      }
    case Begin(k) => FullStep(s.trying, s.pending, 0, Trying(Frame(1), 0), k);
    case Write(result) => WrittenClean(l, s, result);
    case Append =>
    case Flush(n) =>
  }

  /** Bytes stay reserved for good only through a broken pipe or an empty message. */
  lemma {:induction false} LeaksExplained(l: Limits, actions: seq<Action>)
    requires forall i :: 0 <= i < |actions| ==> actions[i] != Write(Fault) && (actions[i].Load? ==> actions[i].len > 0)
    ensures Clean(Run(l, actions))
  {
    hide Next;
    if actions != [] {
      var before := actions[..|actions| - 1];
      assert forall i :: 0 <= i < |before| ==> before[i] == actions[i];
      LeaksExplained(l, before);
      NextClean(l, Run(l, before), actions[|actions| - 1]);
    }
  }

  // ---- The low-water signal ----

  ghost predicate NeverLost(l: Limits) {
    forall actions :: !Run(l, actions).lost
  }

  /** A frame the codec refuses is released before the low-water check was armed. */
  lemma RefusedFrameLosesSignal(l: Limits)
    requires l.Valid() && l.pause < l.hard && l.maxEncodable < l.hard
    ensures Run(l, [Load(0, l.hard), CompareExchange(0, false), Begin(0)]).lost
  {
    var a0, a1 := [Load(0, l.hard)], [Load(0, l.hard), CompareExchange(0, false)];
    RunAppend(l, [], Load(0, l.hard));
    RunAppend(l, a0, CompareExchange(0, false));
    RunAppend(l, a1, Begin(0));
    assert [] + [Load(0, l.hard)] == a0 && a0 + [CompareExchange(0, false)] == a1;
    assert a1 + [Begin(0)] == [Load(0, l.hard), CompareExchange(0, false), Begin(0)];
  }

  /** The steps that leave `n` bytes in the buffer with the low-water check unarmed. */
  function Buffering(n: nat): seq<Action> {
    [Load(0, n), CompareExchange(0, false), Begin(0), Write(Blocked), Append]
  }

  lemma BufferingState(l: Limits, n: nat)
    requires l.Valid() && 0 < n <= l.resume <= l.maxEncodable
    ensures Run(l, Buffering(n)) == CONNECTED.(outstanding := n, buffer := n, writing := true)
  {
    var a := Buffering(n);
    assert a[..1] == [] + [a[0]] && a[..2] == a[..1] + [a[1]] && a[..3] == a[..2] + [a[2]];
    assert a[..4] == a[..3] + [a[3]] && a == a[..4] + [a[4]];
    var f := Frame(n);
    RunAppend(l, [], a[0]);
    RunAppend(l, a[..1], a[1]);
    assert Run(l, a[..1]).trying == map[0 := Trying(f, 0)];
    assert Run(l, a[..2]) == CONNECTED.(outstanding := n, pending := [f]);
    RunAppend(l, a[..2], a[2]);
    assert Run(l, a[..3]) == CONNECTED.(outstanding := n, phase := Armed(f));
    RunAppend(l, a[..3], a[3]);
    RunAppend(l, a[..4], a[4]);
  }

  /** Marks closer than a factor of two: a sender told to pause, and a fall nobody is called for. */
  lemma CloseMarksLoseSignal(l: Limits)
    requires l.Valid() && l.pause < l.hard && l.pause < 2 * l.resume && l.resume <= l.maxEncodable
    ensures var r := l.pause - l.resume + 1;
      Run(l, Buffering(l.resume) + [Load(0, r)] + [CompareExchange(0, false)] + [Flush(l.resume)]).lost
  {
    hide Run;
    var r, b := l.pause - l.resume + 1, Buffering(l.resume);
    BufferingState(l, l.resume);
    RunAppend(l, b, Load(0, r));
    var s := Run(l, b + [Load(0, r)]);
    assert s.trying == map[0 := Trying(Frame(r), l.resume)];
    RunAppend(l, b + [Load(0, r)], CompareExchange(0, false));
    RunAppend(l, b + [Load(0, r)] + [CompareExchange(0, false)], Flush(l.resume));
  }

  /**
    The low-water signal, exactly: no sender answered Accepted + PauseProducer
    ever misses the fall to the resume mark, in any run, if and only if the
    limits are SignalSafe.  The default limits are.
  */
  lemma NoSignalLostExactly(l: Limits)
    requires l.Valid()
    ensures NeverLost(l) <==> SignalSafe(l)
    ensures DEFAULT_LIMITS.Valid() && SignalSafe(DEFAULT_LIMITS)
  {
    if SignalSafe(l) {
      forall actions ensures !Run(l, actions).lost {
        RunKeeps(l, actions);
      }
    } else if l.maxEncodable < l.hard {
      RefusedFrameLosesSignal(l);
    } else {
      CloseMarksLoseSignal(l);
    }
  }

  lemma RunAppend(l: Limits, actions: seq<Action>, a: Action)
    ensures Run(l, actions + [a]) == Next(l, Run(l, actions), a)
  {
    assert (actions + [a])[..|actions|] == actions;
  }

  /**
    In every run, what a sender is told: it is accepted exactly when the counter it
    loaded leaves room and is still the counter; it is told to pause exactly when
    that takes the counter past the pause mark; and it would block exactly when the
    counter it loaded leaves no room.
  */
  lemma SenderToldExactly(l: Limits, actions: seq<Action>, sender: nat, spurious: bool)
    requires l.Valid() && sender in Run(l, actions).trying
    ensures var s := Run(l, actions); var s', t := Next(l, s, CompareExchange(sender, spurious)), s.trying[sender];
      var answer := AnswerOf(l, s, sender, spurious);
      && (answer == Again <==> sender in s'.trying)
      && (answer == Done(SendOutcome(WouldBlock, true)) <==> t.seen + t.frame.Size() > l.hard)
      && (answer.Done? && answer.outcome.disposition == Accepted <==> s'.pending == s.pending + [t.frame])
      && (answer == Done(SendOutcome(Accepted, true))
          <==> s'.pending == s.pending + [t.frame] && s'.outstanding > l.pause)
      && (s'.told <==> s.told || answer == Done(SendOutcome(Accepted, true)))
      && s'.outstanding == s.outstanding + (if s'.pending != s.pending then t.frame.Size() else 0)
      && s'.outstanding <= l.hard
  {
    RunKeeps(l, actions);
    assert |Run(l, actions).pending + [Run(l, actions).trying[sender].frame]| == |Run(l, actions).pending| + 1;
  }

  // ---- The connection as the program writes it ----

  /**
    The fields of the connection.  A sender's local variables are its entry in
    `trying`, the loop thread's are `phase`; each method is one atomic region.
  */
  class TcpConnection {
    var limits: Limits
    var outstandingBytes: int
    var lowWaterArmed: bool
    var outputBytes: int
    var writing: bool
    var reading: bool
    var trying: map<nat, Trying>
    var pending: seq<Frame>
    var phase: Phase
    ghost var leaked: nat
    ghost var told: bool
    ghost var lost: bool

    ghost function View(): State
      reads this
    {
      State(outstandingBytes, lowWaterArmed, outputBytes, writing, reading, trying, pending, phase, leaked, told, lost)
    }

    constructor (maxEncodable: nat)
      ensures View() == CONNECTED && limits == DEFAULT_LIMITS.(maxEncodable := maxEncodable)
    {
      limits := DEFAULT_LIMITS.(maxEncodable := maxEncodable);
      outstandingBytes, lowWaterArmed, outputBytes, writing, reading := 0, false, 0, false, true;
      trying, pending, phase, leaked, told, lost := map[], [], Resting, 0, false, false;
    }

    /** Inconsistent limits are ignored. */
    method SetWriteBufferLimits(l: Limits)
      modifies `limits
      ensures limits == if l.Valid() then l else old(limits)
    {
      if l.resume < l.pause && l.resume < l.hard {
        limits := l;
      }
    }

    method ReleaseOutstanding(n: nat) returns (called: bool)
      modifies this
      ensures View() == Released(limits, old(View()), n) && limits == old(limits)
      ensures called <==> old(lowWaterArmed) && !lowWaterArmed
    {
      var before := outstandingBytes;
      outstandingBytes := outstandingBytes - n;
      var after := before - n;
      called := lowWaterArmed && before > limits.resume && after <= limits.resume;
      if called {
        lowWaterArmed := false;
        told := false;
      } else if before > limits.resume && after <= limits.resume && told {
        lost := true;
      }
    }

    /** The beginning of send: the size check and the first load. */
    method BeginSend(sender: nat, len: nat) returns (turn: Turn)
      requires sender !in trying
      modifies this
      ensures View() == Loaded(limits, old(View()), sender, len) && limits == old(limits)
      ensures turn == if Frame(len).Size() > limits.hard then Done(SendOutcome(TooLarge, false)) else Again
      ensures turn.Again? <==> sender in trying
    {
      var frame := Frame(len);
      if frame.Size() > limits.hard {
        return Done(SendOutcome(TooLarge, false));
      }
      trying := trying[sender := Trying(frame, outstandingBytes)];
      turn := Again;
    }

    /** One turn of the loop in tryReserve; an accepted frame is handed to the loop thread. */
    method TryReserve(sender: nat, spurious: bool) returns (turn: Turn)
      requires sender in trying
      modifies this
      ensures View() == Exchanged(limits, old(View()), sender, spurious) && limits == old(limits)
      ensures turn == AnswerOf(limits, old(View()), sender, spurious)
      ensures turn.Again? <==> sender in trying
      ensures var t := old(trying[sender]);
        && (turn == Done(SendOutcome(WouldBlock, true)) <==> t.seen > limits.hard - t.frame.Size())
        && (turn.Done? && turn.outcome.disposition == Accepted
            <==> t.seen <= limits.hard - t.frame.Size() && !spurious && old(outstandingBytes) == t.seen)
      ensures turn.Done? && turn.outcome.disposition == Accepted ==>
        && outstandingBytes == old(outstandingBytes) + old(trying[sender]).frame.Size()
        && (turn.outcome.pauseProducer <==> outstandingBytes > limits.pause)
        && pending == old(pending) + [old(trying[sender]).frame]
      ensures told == (old(told) || turn == Done(SendOutcome(Accepted, true)))
    {
      var t := trying[sender];
      if t.seen > limits.hard - t.frame.Size() {
        trying := trying - {sender};
        return Done(SendOutcome(WouldBlock, true));
      }
      if spurious || outstandingBytes != t.seen {
        trying := trying[sender := t.(seen := outstandingBytes)];
        return Again;
      }
      outstandingBytes := t.seen + t.frame.Size();
      var overPause := outstandingBytes > limits.pause;
      pending := pending + [t.frame];
      trying := trying - {sender};
      told := told || overPause;
      turn := Done(SendOutcome(Accepted, overPause));
    }

    /** sendInLoop up to the write. */
    method SendInLoop(k: nat)
      requires phase == Resting && k < |pending|
      modifies this
      ensures View() == Begun(limits, old(View()), k) && limits == old(limits)
    {
      var f := pending[k];
      pending := pending[..k] + pending[k + 1..];
      if f.Size() > limits.maxEncodable {
        var called := ReleaseOutstanding(f.Size());
        return;
      }
      if outstandingBytes > limits.resume {
        lowWaterArmed := true;
      }
      phase := Armed(f);
    }

    /** The direct write and what it releases. */
    method TryWrite(result: WriteResult)
      requires phase.Armed? && (result.Wrote? ==> result.n <= phase.frame.len)
      modifies this
      ensures View() == Written(limits, old(View()), result) && limits == old(limits)
    {
      var f := phase.frame;
      var remaining := f.len;
      var faultError, finished := false, false;
      if !writing && outputBytes == 0 {
        match result
        case Wrote(n) =>
          remaining := f.len - n;
          finished := remaining == 0;
          var called := ReleaseOutstanding(if remaining == 0 then f.Size() else n);
        case Blocked =>
        case Fault => faultError := true;
      }
      if !faultError && remaining > 0 {
        phase := Rest(remaining);
      } else {
        phase := Resting;
        leaked := if finished then leaked else leaked + f.Size();
      }
    }

    method AppendRest()
      requires phase.Rest?
      modifies this
      ensures View() == Appended(limits, old(View())) && limits == old(limits)
    {
      outputBytes := outputBytes + phase.bytes;
      phase := Resting;
      if !writing {
        writing := true;
      }
      if outputBytes >= limits.pause && reading {
        reading := false;
      }
    }

    method HandleWrite(n: nat)
      requires phase == Resting && n <= outputBytes
      modifies this
      ensures View() == Flushed(limits, old(View()), n) && limits == old(limits)
    {
      if writing && n > 0 {
        outputBytes := outputBytes - n;
        var called := ReleaseOutstanding(n);
        if outputBytes == 0 {
          writing := false;
        }
        if !reading && outputBytes <= limits.resume {
          reading := true;
        }
      }
    }
  }
}
