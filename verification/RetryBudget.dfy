/** Retry schedules, backoff sums and unique-lock lifetimes of internal/queue/queue.go.
    Durations are integer nanoseconds, as in Go's time.Duration. */
module RetryBudget {
  type Duration = int

  const SECOND: Duration := 1_000_000_000
  const MINUTE: Duration := 60 * SECOND
  const SAFETY_MARGIN: Duration := 2 * MINUTE

  /** A queue's retry schedule: conversion queues wait exactly the scheduled delay,
      the webhook queue waits a jittered one. */
  datatype Policy = Fixed(schedule: seq<Duration>) | Jittered(schedule: seq<Duration>) {
    predicate Valid() {
      schedule != [] && forall i :: 0 <= i < |schedule| ==> 0 <= schedule[i]
    }
  }

  const IMAGE_POLICY := Fixed([2 * SECOND, 5 * SECOND, 15 * SECOND])
  const DOCUMENT_POLICY := Fixed([5 * SECOND, 15 * SECOND, 30 * SECOND])
  const HTML_POLICY := Fixed([5 * SECOND, 15 * SECOND, 30 * SECOND])
  const AUDIO_POLICY := Fixed([5 * SECOND, 15 * SECOND, 30 * SECOND])
  const AV_POLICY := Fixed([30 * SECOND, 2 * MINUTE])
  const WEBHOOK_POLICY := Jittered([30 * SECOND, MINUTE, 2 * MINUTE, 4 * MINUTE, 8 * MINUTE, 15 * MINUTE])
  const WEBHOOK_MAX_RETRY := 6
  const WEBHOOK_ATTEMPT_TIMEOUT: Duration := 10 * SECOND

  /** The schedule entry asynq's n-th retry uses: clamped at both table ends. */
  function Base(schedule: seq<Duration>, n: int): Duration
    requires schedule != []
  {
    if n < 0 then schedule[0]
    else if n >= |schedule| then schedule[|schedule| - 1]
    else schedule[n]
  }

  /** WebhookRetryDelay for the random sample `u`, the value of rand.Float64()*2-1. */
  function JitteredDelay(base: Duration, u: real): Duration {
    var jitter := u * base as real * 0.25;
    var delay := (base as real + jitter).Floor;
    if delay < 0 then 0 else delay
  }

  /** The largest delay the lock lifetime budgets for the n-th retry. */
  function Ceiling(policy: Policy, n: int): Duration
    requires policy.schedule != []
  {
    var base := Base(policy.schedule, n);
    if policy.Fixed? then base else (base as real * 1.25).Floor
  }

  /** The delays the n-th retry may actually be given. */
  ghost predicate MayDelay(policy: Policy, n: int, d: Duration)
    requires policy.schedule != []
  {
    var base := Base(policy.schedule, n);
    match policy
    case Fixed(_) => d == base
    case Jittered(_) => exists u: real :: -1.0 <= u < 1.0 && d == JitteredDelay(base, u)
  }

  /** Total budgeted backoff before the first `n` retries. */
  function CeilingSum(policy: Policy, n: nat): Duration
    requires policy.schedule != []
  {
    if n == 0 then 0 else CeilingSum(policy, n - 1) + Ceiling(policy, n - 1)
  }

  /** imageBackoffSum and its siblings, and webhookBackoffSum: the accumulating loop. */
  method BackoffSum(policy: Policy, maxRetry: int) returns (sum: Duration)
    requires policy.schedule != []
    ensures sum == if maxRetry <= 0 then 0 else CeilingSum(policy, maxRetry)
  {
    sum := 0;
    var i := 0;
    while i < maxRetry
      invariant 0 <= i && (maxRetry <= 0 ==> i == 0) && (0 < maxRetry ==> i <= maxRetry)
      invariant sum == CeilingSum(policy, i)
    {
      sum := sum + Ceiling(policy, i);
      i := i + 1;
    }
  }

  function Ttl(policy: Policy, maxRetry: nat, timeout: Duration): Duration
    requires policy.schedule != []
  {
    (maxRetry + 1) * timeout + CeilingSum(policy, maxRetry) + SAFETY_MARGIN
  }

  /** ImageUniqueTTL and its siblings; no retries, or fewer, have no backoff. */
  method UniqueTTL(policy: Policy, maxRetry: int, timeout: Duration) returns (ttl: Duration)
    requires policy.schedule != []
    ensures ttl == (maxRetry + 1) * timeout + CeilingSum(policy, if maxRetry < 0 then 0 else maxRetry) + SAFETY_MARGIN
    ensures 0 <= maxRetry ==> ttl == Ttl(policy, maxRetry, timeout)
  {
    var backoff := BackoffSum(policy, maxRetry);
    ttl := (maxRetry + 1) * timeout + backoff + SAFETY_MARGIN;
  }

  function Sum(ds: seq<Duration>): Duration {
    if ds == [] then 0 else Sum(ds[..|ds| - 1]) + ds[|ds| - 1]
  }

  /** No jitter sample pushes a delay outside [0, ceiling]. */
  lemma DelayWithinCeiling(policy: Policy, n: int, d: Duration)
    requires policy.Valid() && MayDelay(policy, n, d)
    ensures 0 <= d <= Ceiling(policy, n)
  {
    var base := Base(policy.schedule, n);
    if policy.Jittered? {
      var u: real :| -1.0 <= u < 1.0 && d == JitteredDelay(base, u);
      JitteredWithinCeiling(base, u);
    }
  }

  lemma JitteredWithinCeiling(base: Duration, u: real)
    requires 0 <= base && -1.0 <= u < 1.0
    ensures 0 <= JitteredDelay(base, u) <= (base as real * 1.25).Floor
  {
    var sample := SampleWithin(base as real, u);
    ShiftWithinCeiling(base, sample);
  }

  lemma ShiftWithinCeiling(base: Duration, sample: real)
    requires 0 <= base && -(base as real) <= sample <= base as real
    ensures 0 <= (base as real + sample * 0.25).Floor <= (base as real * 1.25).Floor
  {
    FloorMonotone(base as real + sample * 0.25, base as real * 1.25);
  }

  lemma SampleWithin(b: real, u: real) returns (sample: real)
    requires 0.0 <= b && -1.0 <= u < 1.0
    ensures sample == u * b && -b <= sample <= b
  {
    ProductWithin(b, u);
    sample := u * b;
  }

  /** Jitter takes at most a quarter off, leaves the delay alone at its middle sample, and is even:
      opposite samples shift it by the same amount, to a nanosecond. */
  lemma JitterIsEven(base: Duration, u: real)
    requires 0 <= base && -1.0 < u < 1.0
    ensures JitteredDelay(base, u) >= (base as real * 0.75).Floor && JitteredDelay(base, 0.0) == base
    ensures 2 * base - 1 <= JitteredDelay(base, u) + JitteredDelay(base, -u) <= 2 * base
  {
    var sample := SampleWithin(base as real, u);
    assert -u * base as real == -sample;
    FloorMonotone(base as real * 0.75, base as real + sample * 0.25);
    ShiftWithinCeiling(base, sample);
    ShiftWithinCeiling(base, -sample);
    FloorsAround(base, sample * 0.25);
  }

  lemma FloorsAround(base: int, shift: real)
    ensures 2 * base - 1 <= (base as real + shift).Floor + (base as real - shift).Floor <= 2 * base
  {
  }

  /** Delays come from the schedule, entry by entry, and past its end stay at its last entry; where
      the schedule does not shrink, neither do the delays. */
  lemma BaseFollowsSchedule(schedule: seq<Duration>, n: nat)
    requires schedule != []
    ensures n < |schedule| ==> Base(schedule, n) == schedule[n]
    ensures n >= |schedule| - 1 ==> Base(schedule, n + 1) == Base(schedule, n) == schedule[|schedule| - 1]
    ensures (forall i, j :: 0 <= i < j < |schedule| ==> schedule[i] <= schedule[j]) ==>
              Base(schedule, n) <= Base(schedule, n + 1)
  {
  }

  lemma ProductWithin(b: real, u: real)
    requires 0.0 <= b && -1.0 <= u < 1.0
    ensures -b <= u * b <= b
  {
  }

  lemma FloorMonotone(x: real, y: real)
    requires x <= y
    ensures x.Floor <= y.Floor
  {
  }

  lemma {:induction false} CeilingSumMonotone(policy: Policy, m: nat, n: nat)
    requires policy.Valid() && m <= n
    ensures 0 <= CeilingSum(policy, m) <= CeilingSum(policy, n)
    decreases n
  {
    if m < n {
      CeilingSumMonotone(policy, m, n - 1);
    } else if n > 0 {
      CeilingSumMonotone(policy, n - 1, n - 1);
    }
    if n > 0 {
      assert 0 <= Base(policy.schedule, n - 1);
    }
  }

  /** One retry lifetime: attempt durations and the delays between consecutive attempts. */
  ghost predicate Lifetime(policy: Policy, maxRetry: nat, timeout: Duration, attempts: seq<Duration>,
                           delays: seq<Duration>)
    requires policy.schedule != []
  {
    && 0 < |attempts| <= maxRetry + 1
    && |delays| == |attempts| - 1
    && (forall i :: 0 <= i < |attempts| ==> 0 <= attempts[i] <= timeout)
    && (forall i :: 0 <= i < |delays| ==> MayDelay(policy, i, delays[i]))
  }

  lemma {:induction false} AttemptsWithin(attempts: seq<Duration>, timeout: Duration)
    requires forall i :: 0 <= i < |attempts| ==> attempts[i] <= timeout
    ensures Sum(attempts) <= |attempts| * timeout
  {
    if attempts != [] {
      var n := |attempts|;
      AttemptsWithin(attempts[..n - 1], timeout);
      assert (n - 1) * timeout + timeout == n * timeout;
    }
  }

  lemma MoreAttempts(m: int, n: int, timeout: Duration)
    requires m <= n && 0 <= timeout
    ensures m * timeout <= n * timeout
  {
  }

  lemma {:induction false} DelaysWithin(policy: Policy, delays: seq<Duration>)
    requires policy.Valid()
    requires forall i :: 0 <= i < |delays| ==> MayDelay(policy, i, delays[i])
    ensures Sum(delays) <= CeilingSum(policy, |delays|)
  {
    if delays != [] {
      var n := |delays|;
      DelaysWithin(policy, delays[..n - 1]);
      DelayWithinCeiling(policy, n - 1, delays[n - 1]);
    }
  }

  /** The derived lock lifetime exceeds every possible retry lifetime by the safety margin. */
  lemma TtlCoversLifetime(policy: Policy, maxRetry: nat, timeout: Duration, attempts: seq<Duration>,
                          delays: seq<Duration>)
    requires policy.Valid() && Lifetime(policy, maxRetry, timeout, attempts, delays)
    ensures Sum(attempts) + Sum(delays) + SAFETY_MARGIN <= Ttl(policy, maxRetry, timeout)
  {
    AttemptsWithin(attempts, timeout);
    DelaysWithin(policy, delays);
    CeilingSumMonotone(policy, |delays|, maxRetry);
    assert 0 <= attempts[0] <= timeout;
    MoreAttempts(|attempts|, maxRetry + 1, timeout);
  }

  /** A delay the n-th retry may be given that is within a nanosecond of the budgeted one, which
      the jitter never quite reaches. */
  function LongDelay(policy: Policy, n: int): Duration
    requires policy.schedule != []
  {
    var base := Base(policy.schedule, n);
    if policy.Fixed? || base <= 0 then base else JitteredDelay(base, 1.0 - 1.0 / base as real)
  }

  lemma LongJitter(base: Duration)
    requires 0 < base
    ensures JitteredDelay(base, 1.0 - 1.0 / base as real) >= (base as real * 1.25).Floor - 1
  {
    var b := base as real;
    assert (1.0 - 1.0 / b) * b == b - 1.0;
    FloorMonotone(b * 1.25 - 1.0, b + (b - 1.0) * 0.25);
  }

  lemma LongDelayMay(policy: Policy, n: int)
    requires policy.Valid()
    ensures MayDelay(policy, n, LongDelay(policy, n)) && LongDelay(policy, n) >= Ceiling(policy, n) - 1
    ensures policy.Fixed? ==> LongDelay(policy, n) == Ceiling(policy, n)
  {
    var base := Base(policy.schedule, n);
    if policy.Jittered? {
      if base == 0 {
        assert JitteredDelay(0, 0.0) == 0;
      } else {
        LongJitter(base);
        var u := 1.0 - 1.0 / base as real;
        assert -1.0 <= u < 1.0;
      }
    }
  }

  /** The bound is met by a full lifetime at the ceilings, exactly for fixed delays and to a
      nanosecond a retry for jittered ones, so nothing but the margin is left for time spent
      waiting in the queue. */
  lemma TtlIsTight(policy: Policy, maxRetry: nat, timeout: Duration)
    requires policy.Valid() && 0 <= timeout
    ensures exists attempts, delays ::
              && Lifetime(policy, maxRetry, timeout, attempts, delays)
              && Sum(attempts) + Sum(delays) + SAFETY_MARGIN
                 >= Ttl(policy, maxRetry, timeout) - (if policy.Fixed? then 0 else maxRetry)
  {
    var attempts := seq(maxRetry + 1, i => timeout);
    var delays := seq(maxRetry, i => LongDelay(policy, i));
    WorstAttempts(maxRetry + 1, timeout);
    WorstDelays(policy, maxRetry);
    forall i | 0 <= i < |delays| ensures MayDelay(policy, i, delays[i]) { LongDelayMay(policy, i); }
    assert Lifetime(policy, maxRetry, timeout, attempts, delays);
  }

  lemma {:induction false} WorstAttempts(n: nat, timeout: Duration)
    ensures Sum(seq(n, i => timeout)) == n * timeout
  {
    if n > 0 {
      WorstAttempts(n - 1, timeout);
      assert seq(n, i => timeout)[..n - 1] == seq(n - 1, i => timeout);
      assert (n - 1) * timeout + timeout == n * timeout;
    }
  }

  lemma {:induction false} WorstDelays(policy: Policy, n: nat)
    requires policy.Valid()
    ensures Sum(seq(n, i => LongDelay(policy, i))) >= CeilingSum(policy, n) - (if policy.Fixed? then 0 else n)
  {
    if n > 0 {
      WorstDelays(policy, n - 1);
      LongDelayMay(policy, n - 1);
      assert seq(n, i => LongDelay(policy, i))[..n - 1] == seq(n - 1, i => LongDelay(policy, i));
    }
  }

  /** The lifetimes quoted in the source: 757s for images by default, 2477.5s for webhooks. */
  lemma DocumentedLifetimes()
    ensures Ttl(IMAGE_POLICY, 4, 120 * SECOND) == 757 * SECOND
    ensures 2 * Ttl(WEBHOOK_POLICY, WEBHOOK_MAX_RETRY, WEBHOOK_ATTEMPT_TIMEOUT) == 4955 * SECOND
  {
    assert CeilingSum(IMAGE_POLICY, 4) == 37 * SECOND by {
      assert CeilingSum(IMAGE_POLICY, 1) == 2 * SECOND;
      assert CeilingSum(IMAGE_POLICY, 2) == 7 * SECOND;
      assert CeilingSum(IMAGE_POLICY, 3) == 22 * SECOND;
    }
    assert CeilingSum(WEBHOOK_POLICY, 1) == 37_500_000_000;
    assert CeilingSum(WEBHOOK_POLICY, 2) == 112_500_000_000;
    assert CeilingSum(WEBHOOK_POLICY, 3) == 262_500_000_000;
    assert CeilingSum(WEBHOOK_POLICY, 4) == 562_500_000_000;
    assert CeilingSum(WEBHOOK_POLICY, 5) == 1162_500_000_000;
    assert CeilingSum(WEBHOOK_POLICY, 6) == 2287_500_000_000;
  }
}
