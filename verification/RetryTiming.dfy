/**
  Retry back-off and the scheduler's wake-up interval: the saturating loop that
  spaces redeliveries, and the arithmetic that lets a store of coarse time
  granularity be woken exactly when a row becomes due.
*/
module RetryTiming {
  import opened Domain

  function Min(a: int, b: int): int { if a <= b then a else b }
  function Max(a: int, b: int): int { if a <= b then b else a }

  function Pow(b: int, n: nat): int {
    if n == 0 then 1 else b * Pow(b, n - 1)
  }

  /** C++ integer division truncates toward zero. */
  function TruncDiv(a: int, b: int): int
    requires b > 0
  {
    if a >= 0 then a / b else -((-a) / b)
  }

  /** static_cast<int64_t>(double) truncates toward zero. */
  function Trunc(x: real): int {
    if x >= 0.0 then x.Floor else -((-x).Floor)
  }

  // ---- Back-off ----

  /** min(base * multiplier^(attempt-1), cap); attempts count from 1 and 0 behaves like 1. */
  function Backoff(cfg: Config, attempt: nat): int {
    Min(cfg.backoffBaseMs * Pow(cfg.backoffMultiplier, if attempt == 0 then 0 else attempt - 1), cfg.backoffCapMs)
  }

  function Jittered(cfg: Config, delay: int, factor: real): int {
    if cfg.jitterFraction > 0.0 && delay > 1 then Max(1, Trunc(delay as real * factor)) else delay
  }

  /** Interval from one attempt to the next: never shorter than the ACK timeout. */
  function RetryDelay(cfg: Config, attempt: nat, factor: real): int {
    Max(Jittered(cfg, Backoff(cfg, attempt), factor), cfg.ackTimeoutMs)
  }

  lemma PowPositive(b: int, n: nat)
    requires b > 0
    ensures Pow(b, n) > 0
  {
    if n > 0 { PowPositive(b, n - 1); }
  }

  lemma {:induction false} PowGrows(b: int, m: nat, n: nat)
    requires b > 0 && m <= n
    ensures Pow(b, m) <= Pow(b, n)
    decreases n
  {
    if m < n {
      PowGrows(b, m, n - 1);
      PowPositive(b, n - 1);
      assert Pow(b, n) >= Pow(b, n - 1);
    }
  }

  lemma ScaleMonotone(k: int, a: int, b: int)
    requires k > 0 && a <= b
    ensures k * a <= k * b
  {}

  /** Dividing the cap first decides exactly whether the next product would pass it. */
  lemma QuotientTest(delay: int, cap: int, m: int)
    requires delay > 0 && cap > 0 && m > 0
    ensures delay > cap / m <==> delay * m > cap
  {
    assert cap == cap / m * m + cap % m;
    if delay > cap / m {
      ScaleMonotone(m, cap / m + 1, delay);
    } else {
      ScaleMonotone(m, delay, cap / m);
    }
  }

  lemma NextProduct(base: int, m: int, i: nat, last: nat)
    requires base > 0 && m > 0
    ensures base * Pow(m, i + 1) == base * Pow(m, i) * m && base * Pow(m, i) > 0
    ensures i <= last ==> base * Pow(m, i) <= base * Pow(m, last)
  {
    PowPositive(m, i);
    ScaleMonotone(base, 1, Pow(m, i));
    assert base * (m * Pow(m, i)) == base * Pow(m, i) * m;
    if i <= last {
      PowGrows(m, i, last);
      ScaleMonotone(base, Pow(m, i), Pow(m, last));
    }
  }

  /**
    The saturating loop.  `peak` is the largest value the loop variable ever
    held: it stays within max(base, cap), so a 64-bit product cannot overflow.
  */
  method SaturatingBackoff(cfg: Config, attempt: nat) returns (delay: int, ghost peak: int)
    requires cfg.Valid()
    ensures delay == Backoff(cfg, attempt)
    ensures delay <= peak <= Max(cfg.backoffBaseMs, cfg.backoffCapMs)
  {
    var base, cap, m := cfg.backoffBaseMs, cfg.backoffCapMs, cfg.backoffMultiplier;
    ghost var last := if attempt == 0 then 0 else attempt - 1;
    delay := base;
    peak := delay;
    var i := 1;
    while i < attempt && delay < cap
      invariant 1 <= i <= last + 1
      invariant delay == base * Pow(m, i - 1)
      invariant delay <= peak <= Max(base, cap)
    {
      NextProduct(base, m, i - 1, last);
      NextProduct(base, m, i, last);
      QuotientTest(delay, cap, m);
      if m > 1 && delay > TruncDiv(cap, m) {
        return cap, Max(peak, cap);
      }
      delay := delay * m;
      peak := Max(peak, delay);
      i := i + 1;
    }
    NextProduct(base, m, i - 1, last);
    if delay > cap {
      delay := cap;
    }
  }

  method BackoffMs(cfg: Config, attempt: nat, factor: real) returns (delay: int)
    requires cfg.Valid()
    ensures delay == Jittered(cfg, Backoff(cfg, attempt), factor)
  {
    ghost var peak;
    delay, peak := SaturatingBackoff(cfg, attempt);
    if cfg.jitterFraction > 0.0 && delay > 1 {
      delay := Trunc(delay as real * factor);
      if delay < 1 {
        delay := 1;
      }
    }
  }

  method RetryDelayMs(cfg: Config, attempt: nat, factor: real) returns (delay: int)
    requires cfg.Valid()
    ensures delay == RetryDelay(cfg, attempt, factor)
    ensures delay >= cfg.ackTimeoutMs
  {
    var backoff := BackoffMs(cfg, attempt, factor);
    delay := if backoff > cfg.ackTimeoutMs then backoff else cfg.ackTimeoutMs;
  }

  /** Later attempts never wait less, and the cap is never passed (no jitter). */
  lemma BackoffMonotone(cfg: Config, a: nat, b: nat)
    requires cfg.Valid() && a <= b
    ensures 0 < Backoff(cfg, a) <= Backoff(cfg, b) <= cfg.backoffCapMs
  {
    var m := if a == 0 then 0 else a - 1;
    var n := if b == 0 then 0 else b - 1;
    PowGrows(cfg.backoffMultiplier, m, n);
    PowPositive(cfg.backoffMultiplier, m);
    ScaleMonotone(cfg.backoffBaseMs, Pow(cfg.backoffMultiplier, m), Pow(cfg.backoffMultiplier, n));
    ScaleMonotone(cfg.backoffBaseMs, 1, Pow(cfg.backoffMultiplier, m));
  }

  // ---- Scheduler wake-up ----

  /** The interval is the least of the timeout and the touched rows' remaining times, at least 1. */
  ghost predicate IsNextWake(now: int, ackTimeout: int, nexts: seq<int>, wake: int) {
    && 1 <= wake <= Max(1, ackTimeout)
    && (forall i :: 0 <= i < |nexts| ==> wake <= Max(1, nexts[i] - now))
    && (wake == Max(1, ackTimeout) || exists i :: 0 <= i < |nexts| && wake == Max(1, nexts[i] - now))
  }

  method ComputeNextWakeMs(now: int, ackTimeout: int, nexts: seq<int>) returns (wake: int)
    ensures IsNextWake(now, ackTimeout, nexts, wake)
  {
    wake := ackTimeout;
    for i := 0 to |nexts|
      invariant wake <= ackTimeout && (forall k :: 0 <= k < i ==> wake <= Max(1, nexts[k] - now))
      invariant wake == ackTimeout || exists k :: 0 <= k < i && wake == Max(1, nexts[k] - now)
    {
      var remain := nexts[i] - now;
      if remain < 1 {
        remain := 1;
      }
      if remain < wake {
        wake := remain;
      }
    }
    if wake < 1 {
      wake := 1;
    }
  }

  /** A deadline as a store of granularity g persists it: rounded up to whole units. */
  function StoredDeadline(next: int, g: int): int
    requires g > 0
  {
    TruncDiv(next + g - 1, g)
  }

  function Aligned(next: int, g: int): int
    requires g > 0
  {
    StoredDeadline(next, g) * g
  }

  /** The store's due test compares whole units of the clock with the stored deadline. */
  predicate StoreDue(t: int, next: int, g: int)
    requires g > 0
  {
    TruncDiv(t, g) >= StoredDeadline(next, g)
  }

  /** What one scheduler tick may wait, given the rows it touched. */
  ghost predicate IsTickWait(now: int, ackTimeout: int, g: int, nexts: seq<int>, wake: int)
    requires g > 0
  {
    var aligned := seq(|nexts|, i requires 0 <= i < |nexts| => Aligned(nexts[i], g));
    if exists i :: IsEarliest(aligned, i) && g > 1 && 1 <= aligned[i] - now <= ackTimeout + g - 1 then
      exists i :: IsEarliest(aligned, i) && wake == aligned[i] - now
    else
      IsNextWake(now, ackTimeout, aligned, wake)
  }

  ghost predicate IsEarliest(xs: seq<int>, i: int) {
    0 <= i < |xs| && forall k :: 0 <= k < |xs| ==> xs[i] <= xs[k]
  }

  method TickWait(now: int, ackTimeout: int, g: int, nexts: seq<int>) returns (wake: int)
    requires g > 0
    ensures IsTickWait(now, ackTimeout, g, nexts, wake)
  {
    var aligned: seq<int> := [];
    for i := 0 to |nexts|
      invariant |aligned| == i
      invariant forall k :: 0 <= k < i ==> aligned[k] == Aligned(nexts[k], g)
    {
      aligned := aligned + [Aligned(nexts[i], g)];
    }
    assert aligned == seq(|nexts|, i requires 0 <= i < |nexts| => Aligned(nexts[i], g));
    wake := ComputeNextWakeMs(now, ackTimeout, aligned);
    if g > 1 && |aligned| > 0 {
      var earliest, at := aligned[0], 0;
      for i := 1 to |aligned|
        invariant 0 <= at < i && earliest == aligned[at]
        invariant forall k :: 0 <= k < i ==> earliest <= aligned[k]
      {
        if aligned[i] < earliest {
          earliest, at := aligned[i], i;
        }
      }
      assert IsEarliest(aligned, at);
      var remain := earliest - now;
      if 1 <= remain <= ackTimeout + g - 1 {
        wake := remain;
      }
    }
  }

  /** The scheduler never spins and never oversleeps the timeout by a whole unit. */
  lemma TickWaitBounds(now: int, ackTimeout: int, g: int, nexts: seq<int>, wake: int)
    requires g > 0 && IsTickWait(now, ackTimeout, g, nexts, wake)
    ensures 1 <= wake <= Max(1, ackTimeout + g - 1)
  {
    var aligned := seq(|nexts|, i requires 0 <= i < |nexts| => Aligned(nexts[i], g));
    if i, k :| IsEarliest(aligned, i) && IsEarliest(aligned, k) {
      assert aligned[i] == aligned[k];
    }
  }

  lemma DivAtLeast(a: int, g: int, d: int)
    requires a >= 0 && g > 0
    ensures a / g >= d <==> a >= d * g
  {
    assert a == a / g * g + a % g;
    if a / g >= d {
      ScaleMonotone(g, d, a / g);
    } else {
      ScaleMonotone(g, a / g + 1, d);
    }
  }

  /**
    The due test never fires before the exact deadline, and always fires
    less than one unit after it.
  */
  lemma DueNeverEarlyLittleLate(t: int, next: int, g: int)
    requires g > 0 && t >= 0
    ensures StoreDue(t, next, g) ==> t >= next
    ensures next >= 0 && t >= next + g - 1 ==> StoreDue(t, next, g)
  {
    if next + g - 1 >= 0 {
      DivAtLeast(t, g, StoredDeadline(next, g));
      DivAtLeast(next + g - 1, g, StoredDeadline(next, g));
      DivAtLeast(next + g - 1, g, StoredDeadline(next, g) + 1);
    }
  }

  /** The due test compares the clock with the deadline rounded up to whole units. */
  lemma DueFromAligned(t: int, next: int, g: int)
    requires g > 0 && t >= 0
    ensures StoreDue(t, next, g) <==> t >= Aligned(next, g)
  {
    DivAtLeast(t, g, StoredDeadline(next, g));
  }

  lemma AlignedLittleLate(next: int, g: int)
    requires g > 0 && Aligned(next, g) >= 1
    ensures 0 <= Aligned(next, g) - next < g
  {
    var d := StoredDeadline(next, g);
    if d <= 0 {
      ScaleMonotone(g, d, 0);
    }
    DivAtLeast(next + g - 1, g, d);
    DivAtLeast(next + g - 1, g, d + 1);
    assert (d + 1) * g == d * g + g;
  }

  lemma WaitsForEarliest(now: int, ackTimeout: int, g: int, nexts: seq<int>, wake: int, e: int)
    requires g > 1 && 0 <= e < |nexts|
    requires forall k :: 0 <= k < |nexts| ==> Aligned(nexts[e], g) <= Aligned(nexts[k], g)
    requires 1 <= Aligned(nexts[e], g) - now <= ackTimeout + g - 1
    requires IsTickWait(now, ackTimeout, g, nexts, wake)
    ensures now + wake == Aligned(nexts[e], g)
  {
    hide Aligned;
    var aligned := seq(|nexts|, i requires 0 <= i < |nexts| => Aligned(nexts[i], g));
    assert IsEarliest(aligned, e);
    forall i | IsEarliest(aligned, i) ensures aligned[i] == aligned[e] {}
  }

  /**
    With a coarse store, whenever the earliest touched row falls due within the
    timeout plus the rounding, the wake lands on the first instant at which the
    store reports a touched row due, and it is the earliest row that is due.
  */
  lemma WakeLandsOnFirstDue(now: int, ackTimeout: int, g: int, nexts: seq<int>, wake: int, e: int)
    requires g > 1 && now >= 0 && 0 <= e < |nexts|
    requires forall k :: 0 <= k < |nexts| ==> Aligned(nexts[e], g) <= Aligned(nexts[k], g)
    requires 1 <= Aligned(nexts[e], g) - now <= ackTimeout + g - 1
    requires IsTickWait(now, ackTimeout, g, nexts, wake)
    ensures StoreDue(now + wake, nexts[e], g)
    ensures 0 <= now + wake - nexts[e] < g
    ensures forall t, k :: now <= t < now + wake && 0 <= k < |nexts| ==> !StoreDue(t, nexts[k], g)
  {
    hide Aligned;
    hide StoreDue;
    WaitsForEarliest(now, ackTimeout, g, nexts, wake, e);
    AlignedLittleLate(nexts[e], g);
    DueFromAligned(now + wake, nexts[e], g);
    forall t, k | now <= t < now + wake && 0 <= k < |nexts|
      ensures !StoreDue(t, nexts[k], g)
    {
      DueFromAligned(t, nexts[k], g);
    }
  }
}
