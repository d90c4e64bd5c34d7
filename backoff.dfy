/** `withExponentialBackoff`: call an operation; when it throws, sleep, double the
    delay and try again, until the retry budget is spent, then rethrow. */
module Backoff {
  import opened Outcome

  /** Default retry budget and first delay (in milliseconds) of the combinator. */
  const DefaultMaxRetries: nat := 4
  const DefaultDelay: nat := 50

  /** What one use of the combinator did: how many times it invoked the operation,
      the sleeps it made between invocations (in order), and what it settled to. */
  datatype Run<+T, +E> = Run(calls: nat, waits: seq<nat>, result: Attempt<T, E>)

  function Pow2(n: nat): (r: nat)
    ensures r >= 1
  {
    if n == 0 then 1 else 2 * Pow2(n - 1)
  }

  function Sum(s: seq<nat>): nat {
    if s == [] then 0 else s[0] + Sum(s[1..])
  }

  /** The first `n` sleeps of the doubling schedule that starts at `delay`. */
  function Schedule(delay: nat, n: nat): (r: seq<nat>)
    ensures |r| == n
    decreases n
  {
    if n == 0 then [] else [delay] + Schedule(2 * delay, n - 1)
  }

  /** The `i`-th sleep of the schedule is `delay * 2^i`. */
  lemma {:induction false} ScheduleAt(delay: nat, n: nat, i: nat)
    requires i < n
    ensures Schedule(delay, n)[i] == delay * Pow2(i)
    decreases n
  {
    if i > 0 {
      ScheduleAt(2 * delay, n - 1, i - 1);
      assert (2 * delay) * Pow2(i - 1) == delay * (2 * Pow2(i - 1));
    }
  }

  /** The schedule sleeps `delay * (2^n - 1)` in all. */
  lemma {:induction false} ScheduleSum(delay: nat, n: nat)
    ensures Sum(Schedule(delay, n)) == delay * (Pow2(n) - 1)
    decreases n
  {
    if n > 0 {
      ScheduleSum(2 * delay, n - 1);
      assert Schedule(delay, n)[1..] == Schedule(2 * delay, n - 1);
      assert (2 * delay) * (Pow2(n - 1) - 1) == delay * (2 * Pow2(n - 1)) - 2 * delay;
    }
  }

  /** `withExponentialBackoff({ fn, maxRetries, delay })`. The operation's `i`-th
      invocation (counting from 0) settles to `fn(i)`; `first` is the number of
      invocations made before this (recursive) entry, 0 for a caller. */
  function WithExponentialBackoff<T, E>(fn: nat -> Attempt<T, E>, first: nat, maxRetries: nat, delay: nat): (r: Run<T, E>)
    ensures 1 <= r.calls <= maxRetries + 1
    ensures r.result == fn(first + r.calls - 1)
    ensures forall i :: first <= i < first + r.calls - 1 ==> fn(i).Threw?
    ensures r.result.Threw? ==> r.calls == maxRetries + 1
    ensures r.waits == Schedule(delay, r.calls - 1)
    decreases maxRetries
  {
    match fn(first)
    case Returned(v) => Run(1, [], Returned(v))
    case Threw(e) =>
      if maxRetries == 0 then Run(1, [], Threw(e))
      else
        var rest := WithExponentialBackoff(fn, first + 1, maxRetries - 1, delay * 2);
        Run(rest.calls + 1, [delay] + rest.waits, rest.result)
  }

  /** An operation that always throws is invoked exactly `maxRetries + 1` times and
      the error of the last invocation is rethrown. */
  lemma AlwaysFailing<T, E>(fn: nat -> Attempt<T, E>, maxRetries: nat, delay: nat)
    requires forall i :: 0 <= i <= maxRetries ==> fn(i).Threw?
    ensures WithExponentialBackoff(fn, 0, maxRetries, delay).calls == maxRetries + 1
    ensures WithExponentialBackoff(fn, 0, maxRetries, delay).result == fn(maxRetries)
  {
    var r := WithExponentialBackoff(fn, 0, maxRetries, delay);
    assert r.calls - 1 <= maxRetries;
  }

  /** With no retries the combinator throws after a single call, without sleeping. */
  lemma NoRetries<T, E>(fn: nat -> Attempt<T, E>, delay: nat)
    requires fn(0).Threw?
    ensures WithExponentialBackoff(fn, 0, 0, delay) == Run(1, [], fn(0))
  {
  }

  /** An operation that first returns on invocation `k` (counting from 1, within the
      budget) is invoked exactly `k` times and its value is returned. */
  lemma FirstSuccess<T, E>(fn: nat -> Attempt<T, E>, maxRetries: nat, delay: nat, k: nat)
    requires 1 <= k <= maxRetries + 1
    requires forall i :: 0 <= i < k - 1 ==> fn(i).Threw?
    requires fn(k - 1).Returned?
    ensures WithExponentialBackoff(fn, 0, maxRetries, delay).calls == k
    ensures WithExponentialBackoff(fn, 0, maxRetries, delay).result == fn(k - 1)
  {
  }

  /** The `i`-th sleep between invocations is `delay * 2^i`: each retry doubles the
      previous sleep. */
  lemma WaitSchedule<T, E>(fn: nat -> Attempt<T, E>, maxRetries: nat, delay: nat, i: nat)
    requires i < |WithExponentialBackoff(fn, 0, maxRetries, delay).waits|
    ensures WithExponentialBackoff(fn, 0, maxRetries, delay).waits[i] == delay * Pow2(i)
  {
    var r := WithExponentialBackoff(fn, 0, maxRetries, delay);
    ScheduleAt(delay, r.calls - 1, i);
  }

  /** The total time slept is `delay * (2^(calls - 1) - 1)`, never more than
      `delay * (2^maxRetries - 1)`, which an always-throwing operation reaches. */
  lemma TotalWait<T, E>(fn: nat -> Attempt<T, E>, maxRetries: nat, delay: nat)
    ensures var r := WithExponentialBackoff(fn, 0, maxRetries, delay);
      Sum(r.waits) == delay * (Pow2(r.calls - 1) - 1) <= delay * (Pow2(maxRetries) - 1)
  {
    var r := WithExponentialBackoff(fn, 0, maxRetries, delay);
    ScheduleWithin(delay, r.calls - 1, maxRetries);
  }

  /** A schedule of `n` sleeps sleeps no longer than one of `m >= n` sleeps. */
  lemma ScheduleWithin(delay: nat, n: nat, m: nat)
    requires n <= m
    ensures Sum(Schedule(delay, n)) == delay * (Pow2(n) - 1) <= delay * (Pow2(m) - 1)
  {
    ScheduleSum(delay, n);
    Pow2Monotone(n, m);
    MulMonotone(delay, Pow2(n) - 1, Pow2(m) - 1);
  }

  lemma MulMonotone(c: nat, a: nat, b: nat)
    requires a <= b
    ensures c * a <= c * b
  {
  }

  lemma {:induction false} Pow2Monotone(m: nat, n: nat)
    requires m <= n
    ensures Pow2(m) <= Pow2(n)
    decreases n
  {
    if m < n {
      Pow2Monotone(m, n - 1);
    }
  }

  /** With the default budget and delay, an operation that always throws is retried
      after sleeping 50, 100, 200 and 400 ms, and not after its fifth failure. */
  lemma DefaultSchedule<T, E>(fn: nat -> Attempt<T, E>)
    requires forall i :: 0 <= i <= DefaultMaxRetries ==> fn(i).Threw?
    ensures WithExponentialBackoff(fn, 0, DefaultMaxRetries, DefaultDelay).waits == [50, 100, 200, 400]
  {
    AlwaysFailing(fn, DefaultMaxRetries, DefaultDelay);
    assert Schedule(50, 4) == [50, 100, 200, 400];
  }
}
