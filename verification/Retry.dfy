/** Deterministic retry with bounded exponential backoff, over the reals. */
module Retry {
  import opened Prelude

  datatype Policy = Policy(maxAttempts: int, base: real, factor: real, maxDelay: real, jitter: real -> real)

  /** What constructing a policy checks. */
  predicate Allowed(p: Policy) {
    p.maxAttempts >= 1 && p.base >= 0.0 && p.factor >= 1.0 && p.maxDelay >= p.base
  }

  /** One attempt of the operation: a value, or an exception named by its class. */
  datatype Work<!T> = Work(attempt: nat -> Try<T>, retryable: string -> bool)

  function Pow(x: real, n: nat): real {
    if n == 0 then 1.0 else x * Pow(x, n - 1)
  }

  function Min(a: real, b: real): real { if a <= b then a else b }

  function Max(a: real, b: real): real { if a <= b then b else a }

  function Raw(p: Policy, attempt: nat): real
    requires attempt >= 1
  {
    p.base * Pow(p.factor, attempt - 1)
  }

  function Capped(p: Policy, attempt: nat): real
    requires attempt >= 1
  {
    Min(Raw(p, attempt), p.maxDelay)
  }

  /** The delay in milliseconds after attempt number `attempt` failed. */
  function Delay(p: Policy, attempt: nat): real
    requires attempt >= 1
  {
    Max(0.0, p.jitter(Capped(p, attempt)))
  }

  /** A policy as the retry loop sees it. */
  datatype Schedule = Schedule(maxAttempts: int, delay: nat -> real)

  function ScheduleOf(p: Policy): Schedule {
    Schedule(p.maxAttempts, (k: nat) => if k >= 1 then Delay(p, k) else 0.0)
  }

  /** `sleeps` are in seconds. */
  datatype Retried<T> = Retried(result: Try<T>, calls: nat, sleeps: seq<real>)

  predicate Retryable<T>(w: Work<T>, o: Try<T>) {
    o.Raise? && w.retryable(o.fault)
  }

  function RetryFrom<T>(s: Schedule, w: Work<T>, attempt: nat): Retried<T>
    requires attempt >= 1
    decreases s.maxAttempts - attempt
  {
    var o := w.attempt(attempt);
    if !Retryable(w, o) || attempt >= s.maxAttempts then Retried(o, 1, [])
    else
      var rest := RetryFrom(s, w, attempt + 1);
      Retried(rest.result, 1 + rest.calls, [s.delay(attempt) / 1000.0] + rest.sleeps)
  }

  /** A run that already slept `sleeps`, once for each call made. */
  function After<T>(sleeps: seq<real>, rest: Retried<T>): Retried<T> {
    Retried(rest.result, |sleeps| + rest.calls, sleeps + rest.sleeps)
  }

  lemma AfterAgain<T>(sleeps: seq<real>, x: real, rest: Retried<T>)
    ensures After(sleeps, Retried(rest.result, 1 + rest.calls, [x] + rest.sleeps)) == After(sleeps + [x], rest)
  {
    assert sleeps + ([x] + rest.sleeps) == sleeps + [x] + rest.sleeps;
  }

  /** One more attempt that leaves the loop going. */
  lemma AttemptAgain<T>(s: Schedule, w: Work<T>, attempt: nat, sleeps: seq<real>)
    requires attempt >= 1 && Retryable(w, w.attempt(attempt)) && attempt < s.maxAttempts
    ensures After(sleeps, RetryFrom(s, w, attempt))
         == After(sleeps + [s.delay(attempt) / 1000.0], RetryFrom(s, w, attempt + 1))
  {
    AfterAgain(sleeps, s.delay(attempt) / 1000.0, RetryFrom(s, w, attempt + 1));
  }

  method RetryLoop<T>(s: Schedule, w: Work<T>) returns (r: Retried<T>)
    ensures r == RetryFrom(s, w, 1)
  {
    var attempt: nat := 1;
    var sleeps: seq<real> := [];
    while true
      invariant attempt >= 1 && RetryFrom(s, w, 1) == After(sleeps, RetryFrom(s, w, attempt))
      invariant |sleeps| == attempt - 1
      decreases s.maxAttempts - attempt
    {
      var o := w.attempt(attempt);
      if !Retryable(w, o) || attempt >= s.maxAttempts {
        assert sleeps + [] == sleeps;
        return Retried(o, attempt, sleeps);
      }
      AttemptAgain(s, w, attempt, sleeps);
      sleeps := sleeps + [s.delay(attempt) / 1000.0];
      attempt := attempt + 1;
    }
  }

  /** The operation is called until an attempt does not end in a retryable exception or the budget is
      spent, and no further; its last attempt is the result; between calls k and k + 1 there is
      exactly one sleep, of the delay for k. */
  lemma {:induction false} RetryExact<T>(s: Schedule, w: Work<T>, attempt: nat)
    requires 1 <= attempt && attempt <= s.maxAttempts
    ensures var r := RetryFrom(s, w, attempt);
      var last := attempt + r.calls - 1;
      && 1 <= r.calls && last <= s.maxAttempts
      && r.result == w.attempt(last)
      && (forall k :: attempt <= k < last ==> Retryable(w, w.attempt(k)))
      && (!Retryable(w, w.attempt(last)) || last == s.maxAttempts)
      && |r.sleeps| == r.calls - 1
      && forall i :: 0 <= i < |r.sleeps| ==> r.sleeps[i] == s.delay(attempt + i) / 1000.0
    decreases s.maxAttempts - attempt
  {
    var o := w.attempt(attempt);
    if Retryable(w, o) && attempt < s.maxAttempts {
      RetryExact(s, w, attempt + 1);
      var rest := RetryFrom(s, w, attempt + 1).sleeps;
      var sleeps := [s.delay(attempt) / 1000.0] + rest;
      forall i | 0 <= i < |sleeps| ensures sleeps[i] == s.delay(attempt + i) / 1000.0 {
        if i > 0 {
          assert sleeps[i] == rest[i - 1] && attempt + i == attempt + 1 + (i - 1);
        }
      }
    }
  }

  // ---- the delays ----

  /** The default jitter. */
  ghost predicate NoJitter(p: Policy) {
    forall x :: p.jitter(x) == x
  }

  lemma {:induction false} PowGrows(x: real, n: nat)
    requires x >= 1.0
    ensures 1.0 <= Pow(x, n) <= Pow(x, n + 1)
  {
    if n > 0 {
      PowGrows(x, n - 1);
    }
    assert Pow(x, n + 1) == x * Pow(x, n);
    Scale(Pow(x, n), 1.0, x);
  }

  lemma Scale(k: real, a: real, b: real)
    requires k >= 0.0 && a <= b
    ensures k * a <= k * b && a * k <= b * k
  {
    assert k * (b - a) >= 0.0;
  }

  lemma CappedBounds(p: Policy, attempt: nat)
    requires Allowed(p) && attempt >= 1
    ensures 0.0 <= Capped(p, attempt) <= p.maxDelay && Capped(p, attempt) <= Capped(p, attempt + 1)
    ensures Capped(p, attempt) <= p.base * Pow(p.factor, attempt - 1)
  {
    RawGrows(p, attempt);
  }

  lemma RawGrows(p: Policy, attempt: nat)
    requires Allowed(p) && attempt >= 1
    ensures 0.0 <= Raw(p, attempt) <= Raw(p, attempt + 1)
  {
    var q, q' := Pow(p.factor, attempt - 1), Pow(p.factor, attempt);
    PowGrows(p.factor, attempt - 1);
    Scale(p.base, 0.0, q);
    Scale(p.base, q, q');
  }

  /** Without jitter. */
  lemma PlainDelay(p: Policy, attempt: nat)
    requires Allowed(p) && NoJitter(p) && attempt >= 1
    ensures Delay(p, attempt) == Capped(p, attempt)
  {
    CappedBounds(p, attempt);
  }

  lemma DelayBounds(p: Policy, attempt: nat)
    requires Allowed(p) && NoJitter(p) && attempt >= 1
    ensures 0.0 <= Delay(p, attempt) <= p.maxDelay
    ensures Delay(p, attempt) <= Delay(p, attempt + 1)
    ensures Delay(p, attempt) <= p.base * Pow(p.factor, attempt - 1)
  {
    CappedBounds(p, attempt);
    PlainDelay(p, attempt);
    PlainDelay(p, attempt + 1);
  }

  /** Without jitter the first delay is the base delay, and each delay after that is `factor` times the
      one before, but at most the maximum. */
  lemma DelayRecurrence(p: Policy, attempt: nat)
    requires Allowed(p) && NoJitter(p) && attempt >= 1
    ensures Delay(p, 1) == p.base
    ensures var next := p.factor * Delay(p, attempt);
      Delay(p, attempt + 1) == if next <= p.maxDelay then next else p.maxDelay
  {
    PlainDelay(p, 1);
    PlainDelay(p, attempt);
    PlainDelay(p, attempt + 1);
    RawNext(p, attempt);
    RawGrows(p, attempt);
    CapNext(Raw(p, attempt), p.factor, p.maxDelay);
  }

  lemma RawNext(p: Policy, attempt: nat)
    requires attempt >= 1
    ensures Raw(p, 1) == p.base && Raw(p, attempt + 1) == p.factor * Raw(p, attempt)
  {
    assert Pow(p.factor, 0) == 1.0;
    Regroup(p.base, p.factor, Pow(p.factor, attempt - 1));
  }

  lemma Regroup(b: real, f: real, q: real)
    ensures b * (f * q) == f * (b * q)
  {
  }

  lemma CapNext(x: real, f: real, max: real)
    requires f >= 1.0 && x >= 0.0 && max >= 0.0
    ensures var next := f * Min(x, max);
      Min(f * x, max) == if next <= max then next else max
  {
    Scale(max, 1.0, f);
    if x > max {
      Scale(f, max, x);
    }
  }

  /** Under any jitter a delay is what the jitter makes of the delay without it, or zero if that is
      negative. */
  lemma JitterApplies(p: Policy, attempt: nat)
    requires Allowed(p) && attempt >= 1
    ensures var plain := Delay(p.(jitter := x => x), attempt);
      Delay(p, attempt) == if p.jitter(plain) >= 0.0 then p.jitter(plain) else 0.0
  {
    var plain := p.(jitter := x => x);
    assert NoJitter(plain) && Allowed(plain) && Capped(plain, attempt) == Capped(p, attempt);
    PlainDelay(plain, attempt);
  }

  lemma {:induction false} DelaysGrow(p: Policy, a: nat, b: nat)
    requires Allowed(p) && NoJitter(p) && 1 <= a <= b
    ensures Delay(p, a) <= Delay(p, b)
    decreases b
  {
    if a < b {
      DelaysGrow(p, a, b - 1);
      DelayBounds(p, b - 1);
    }
  }

  function Seconds(sleeps: seq<real>): real {
    if sleeps == [] then 0.0 else Seconds(sleeps[..|sleeps| - 1]) + sleeps[|sleeps| - 1]
  }

  function Times(n: int, x: real): real {
    n as real * x
  }

  lemma TimesNext(n: int, x: real)
    ensures Times(n + 1, x) == Times(n, x) + x
  {
  }

  lemma {:induction false} TimesGrows(m: int, n: int, x: real)
    requires x >= 0.0 && m <= n
    ensures Times(m, x) <= Times(n, x)
  {
    Scale(x, m as real, n as real);
  }

  lemma {:induction false} SumBound(sleeps: seq<real>, max: real)
    requires forall i :: 0 <= i < |sleeps| ==> sleeps[i] <= max
    ensures Seconds(sleeps) <= Times(|sleeps|, max)
  {
    if sleeps != [] {
      SumBound(sleeps[..|sleeps| - 1], max);
      TimesNext(|sleeps| - 1, max);
    }
  }

  function Uncapped(b: real, f: real, i: nat): real {
    if i == 0 then b else f * Uncapped(b, f, i - 1)
  }

  lemma {:induction false} UncappedIs(b: real, f: real, i: nat)
    ensures Uncapped(b, f, i) == b * Pow(f, i)
  {
    if i > 0 {
      UncappedIs(b, f, i - 1);
      assert f * (b * Pow(f, i - 1)) == b * (f * Pow(f, i - 1));
    }
  }

  /** The sum of the first `n` uncapped delays. */
  function Geometric(b: real, f: real, n: nat): real {
    if n == 0 then 0.0 else Geometric(b, f, n - 1) + Uncapped(b, f, n - 1)
  }

  lemma {:induction false} SumUnderGeometric(sleeps: seq<real>, b: real, f: real)
    requires forall i :: 0 <= i < |sleeps| ==> sleeps[i] <= Uncapped(b, f, i)
    ensures Seconds(sleeps) <= Geometric(b, f, |sleeps|)
  {
    if sleeps != [] {
      var n := |sleeps| - 1;
      SumUnderGeometric(sleeps[..n], b, f);
      assert sleeps[n] <= Uncapped(b, f, n);
    }
  }

  lemma {:induction false} GeometricTimes(b: real, f: real, n: nat)
    ensures Geometric(b, f, n) * (f - 1.0) == b * (Pow(f, n) - 1.0)
  {
    if n > 0 {
      GeometricTimes(b, f, n - 1);
      UncappedIs(b, f, n - 1);
      TimesStep(Geometric(b, f, n - 1), b, f, Pow(f, n - 1), Geometric(b, f, n), Pow(f, n));
    }
  }

  lemma TimesStep(g: real, b: real, f: real, q: real, g': real, q': real)
    requires g * (f - 1.0) == b * (q - 1.0) && g' == g + b * q && q' == f * q
    ensures g' * (f - 1.0) == b * (q' - 1.0)
  {
    var c := b * q;
    assert (g + c) * (f - 1.0) == g * (f - 1.0) + c * (f - 1.0);
    assert b * (q - 1.0) == c - b && c * (f - 1.0) == c * f - c;
    assert b * (f * q - 1.0) == c * f - b;
  }

  function ClosedForm(b: real, f: real, n: nat): real
    requires f > 1.0
  {
    b * (Pow(f, n) - 1.0) / (f - 1.0)
  }

  lemma GeometricClosed(b: real, f: real, n: nat)
    requires f > 1.0
    ensures Geometric(b, f, n) == ClosedForm(b, f, n)
  {
    GeometricTimes(b, f, n);
    Quotient(Geometric(b, f, n), f - 1.0, b * (Pow(f, n) - 1.0));
  }

  lemma Quotient(t: real, k: real, b: real)
    requires k > 0.0 && t * k == b
    ensures t == b / k
  {
  }

  lemma OneSleep(p: Policy, i: nat)
    requires Allowed(p) && NoJitter(p)
    ensures 0.0 <= Delay(p, i + 1) / 1000.0 <= p.maxDelay / 1000.0
    ensures Delay(p, i + 1) / 1000.0 <= Uncapped(p.base / 1000.0, p.factor, i)
  {
    DelayBounds(p, i + 1);
    UncappedIs(p.base / 1000.0, p.factor, i);
    Thousandth(p.base, Pow(p.factor, i));
  }

  lemma Thousandth(a: real, b: real)
    ensures a / 1000.0 * b == a * b / 1000.0
  {
  }

  /** No sleep is negative, over the maximum, over the uncapped delay of its place, or shorter than
      one before it. */
  ghost predicate Shaped(sleeps: seq<real>, base: real, factor: real, max: real) {
    && (forall i :: 0 <= i < |sleeps| ==> 0.0 <= sleeps[i] <= max)
    && (forall i :: 0 <= i < |sleeps| ==> sleeps[i] <= Uncapped(base, factor, i))
    && (forall i, j :: 0 <= i < j < |sleeps| ==> sleeps[i] <= sleeps[j])
  }

  lemma SleepsShaped(p: Policy, sleeps: seq<real>, base: real, max: real)
    requires Allowed(p) && NoJitter(p) && base == p.base / 1000.0 && max == p.maxDelay / 1000.0
    requires forall i :: 0 <= i < |sleeps| ==> sleeps[i] == Delay(p, i + 1) / 1000.0
    ensures Shaped(sleeps, base, p.factor, max)
  {
    forall i | 0 <= i < |sleeps| ensures 0.0 <= sleeps[i] <= max && sleeps[i] <= Uncapped(base, p.factor, i) {
      OneSleep(p, i);
    }
    forall i, j | 0 <= i < j < |sleeps| ensures sleeps[i] <= sleeps[j] {
      DelaysGrow(p, i + 1, j + 1);
    }
  }

  lemma TotalBound(sleeps: seq<real>, max: real, n: int)
    requires max >= 0.0 && |sleeps| <= n && forall i :: 0 <= i < |sleeps| ==> sleeps[i] <= max
    ensures Seconds(sleeps) <= Times(n, max)
  {
    SumBound(sleeps, max);
    TimesGrows(|sleeps|, n, max);
  }

  /** As long as the cap is not reached, a sleep is the uncapped one. */
  lemma UncappedSleep(p: Policy, i: nat)
    requires Allowed(p) && NoJitter(p) && Uncapped(p.base / 1000.0, p.factor, i) <= p.maxDelay / 1000.0
    ensures Delay(p, i + 1) / 1000.0 == Uncapped(p.base / 1000.0, p.factor, i)
  {
    UncappedIs(p.base / 1000.0, p.factor, i);
    Thousandth(p.base, Pow(p.factor, i));
    PlainDelay(p, i + 1);
  }

  lemma {:induction false} UncappedGrows(b: real, f: real, i: nat, j: nat)
    requires b >= 0.0 && f >= 1.0 && i <= j
    ensures 0.0 <= Uncapped(b, f, i) <= Uncapped(b, f, j)
    decreases j
  {
    if i < j {
      UncappedGrows(b, f, i, j - 1);
      UncappedGrows(b, f, j - 1, j - 1);
      Scale(Uncapped(b, f, j - 1), 1.0, f);
    } else if i > 0 {
      UncappedGrows(b, f, i - 1, i - 1);
      Scale(Uncapped(b, f, i - 1), 0.0, f);
    }
  }

  lemma {:induction false} SumIsGeometric(sleeps: seq<real>, b: real, f: real)
    requires forall i :: 0 <= i < |sleeps| ==> sleeps[i] == Uncapped(b, f, i)
    ensures Seconds(sleeps) == Geometric(b, f, |sleeps|)
  {
    if sleeps != [] {
      var n := |sleeps| - 1;
      SumIsGeometric(sleeps[..n], b, f);
      assert sleeps[n] == Uncapped(b, f, n);
    }
  }

  /** A run whose last sleep is not capped sleeps exactly the geometric sum. */
  lemma UncappedTotal<T>(p: Policy, w: Work<T>)
    requires Allowed(p) && NoJitter(p)
    ensures var sleeps := RetryFrom(ScheduleOf(p), w, 1).sleeps;
      var base := p.base / 1000.0;
      sleeps != [] && Uncapped(base, p.factor, |sleeps| - 1) <= p.maxDelay / 1000.0 ==>
        Seconds(sleeps) == Geometric(base, p.factor, |sleeps|)
  {
    RunSleeps(p, w);
    var sleeps, base := RetryFrom(ScheduleOf(p), w, 1).sleeps, p.base / 1000.0;
    if sleeps != [] && Uncapped(base, p.factor, |sleeps| - 1) <= p.maxDelay / 1000.0 {
      forall i | 0 <= i < |sleeps| ensures sleeps[i] == Uncapped(base, p.factor, i) {
        UncappedGrows(base, p.factor, i, |sleeps| - 1);
        UncappedSleep(p, i);
      }
      SumIsGeometric(sleeps, base, p.factor);
    }
  }

  /** What the sleeps of a run are like: their shape, and both bounds on their total. All in seconds. */
  ghost predicate Bounded(sleeps: seq<real>, base: real, factor: real, max: real, retries: int) {
    && Shaped(sleeps, base, factor, max)
    && Seconds(sleeps) <= Times(retries, max)
    && Seconds(sleeps) <= Geometric(base, factor, |sleeps|)
  }

  lemma DelaysAreBounded(sleeps: seq<real>, base: real, factor: real, max: real, retries: int)
    requires max >= 0.0 && |sleeps| <= retries && Shaped(sleeps, base, factor, max)
    ensures Bounded(sleeps, base, factor, max, retries)
  {
    TotalBound(sleeps, max, retries);
    SumUnderGeometric(sleeps, base, factor);
  }

  /** For every operation and every policy without jitter: the number of calls and sleeps, the shape
      of the delays, and both bounds on the total sleep. */
  lemma BackoffBounds<T>(p: Policy, w: Work<T>)
    requires Allowed(p) && NoJitter(p)
    ensures var r := RetryFrom(ScheduleOf(p), w, 1);
      && 1 <= r.calls <= p.maxAttempts && |r.sleeps| == r.calls - 1
      && Bounded(r.sleeps, p.base / 1000.0, p.factor, p.maxDelay / 1000.0, p.maxAttempts - 1)
      && (p.factor > 1.0 ==> Seconds(r.sleeps) <= ClosedForm(p.base / 1000.0, p.factor, |r.sleeps|))
  {
    RunSleeps(p, w);
    var sleeps := RetryFrom(ScheduleOf(p), w, 1).sleeps;
    RunIsBounded(p, sleeps, p.base / 1000.0, p.maxDelay / 1000.0);
    if p.factor > 1.0 {
      GeometricClosed(p.base / 1000.0, p.factor, |sleeps|);
    }
  }

  lemma RunSleeps<T>(p: Policy, w: Work<T>)
    requires Allowed(p)
    ensures var r := RetryFrom(ScheduleOf(p), w, 1);
      && 1 <= r.calls <= p.maxAttempts && |r.sleeps| == r.calls - 1
      && forall i :: 0 <= i < |r.sleeps| ==> r.sleeps[i] == Delay(p, i + 1) / 1000.0
  {
    var r := RetryFrom(ScheduleOf(p), w, 1);
    RetryExact(ScheduleOf(p), w, 1);
    forall i | 0 <= i < |r.sleeps| ensures r.sleeps[i] == Delay(p, i + 1) / 1000.0 {
      assert r.sleeps[i] == ScheduleOf(p).delay(1 + i) / 1000.0;
    }
  }

  lemma RunIsBounded(p: Policy, sleeps: seq<real>, base: real, max: real)
    requires Allowed(p) && NoJitter(p) && |sleeps| < p.maxAttempts
    requires base == p.base / 1000.0 && max == p.maxDelay / 1000.0
    requires forall i :: 0 <= i < |sleeps| ==> sleeps[i] == Delay(p, i + 1) / 1000.0
    ensures Bounded(sleeps, base, p.factor, max, p.maxAttempts - 1)
  {
    SleepsShaped(p, sleeps, base, max);
    DelaysAreBounded(sleeps, base, p.factor, max, p.maxAttempts - 1);
  }
}
