/** RunWithRetry: when it stops, what it returns, how long it waits, and when its delays overflow int64. */
module Retry {
  import opened Wrappers
  import opened Check
  import opened FixedWidth

  const SECOND := 1_000_000_000

  /** Any backoff name other than the two known ones keeps the delay. */
  datatype Backoff = Constant | Exponential | Linear

  datatype Policy = Policy(count: int, delay: int, backoff: Backoff)

  function FirstDelay(p: Policy): int {
    if p.delay == 0 then SECOND else p.delay
  }

  function NextDelay(p: Policy, d: int): int {
    match p.backoff
    case Constant => d
    case Exponential => Wrap64(d * 2)
    case Linear => Wrap64(d + p.delay)
  }

  /** The delay before retry k, as the loop computes it. */
  function DelayAt(p: Policy, k: nat): int
    requires k >= 1
  {
    if k == 1 then FirstDelay(p) else NextDelay(p, DelayAt(p, k - 1))
  }

  // ----- The loop -----

  /** How many retries the policy allows. */
  function Allowed(policy: Option<Policy>): nat {
    if policy.None? || policy.value.count <= 0 then 0 else policy.value.count
  }

  /**
   A run made `calls` calls and started the listed waits. `run(k)` is the outcome of call k and
   `cancelled(k)` tells whether the context ends during the wait before retry k.
   */
  ghost predicate IsRetryRun(
    run: nat -> Result, cancelled: nat -> bool, policy: Option<Policy>,
    result: Result, calls: nat, waits: seq<int>)
  {
    && 1 <= calls <= 1 + Allowed(policy)
    // every call but the last failed, and no wait between calls was cancelled
    && (forall k: nat :: k < calls - 1 ==> !run(k).success)
    && (forall k: nat :: 1 <= k < calls ==> !cancelled(k))
    // the last outcome is returned; retries are numbered
    && result == (if calls == 1 then run(0) else run(calls - 1).(retries := calls - 1))
    // it stopped for a reason, and a cancelled wait had been started
    && (result.success || calls == 1 + Allowed(policy) || cancelled(calls))
    && |waits| == (if result.success || calls == 1 + Allowed(policy) then calls - 1 else calls)
    && (forall k: nat :: 1 <= k <= |waits| ==> policy.Some? && waits[k - 1] == DelayAt(policy.value, k))
  }

  method RunWithRetry(run: nat -> Result, cancelled: nat -> bool, policy: Option<Policy>)
    returns (result: Result, calls: nat, waits: seq<int>)
    ensures IsRetryRun(run, cancelled, policy, result, calls, waits)
  {
    result := run(0);
    calls, waits := 1, [];
    if result.success || policy.None? || policy.value.count <= 0 {
      return;
    }
    var delay := policy.value.delay;
    if delay == 0 {
      delay := SECOND;
    }
    var attempt := 1;
    while attempt <= policy.value.count
      invariant 1 <= attempt == calls <= policy.value.count + 1
      invariant forall k: nat :: k < calls ==> !run(k).success
      invariant forall k: nat :: 1 <= k < calls ==> !cancelled(k)
      invariant result == (if calls == 1 then run(0) else run(calls - 1).(retries := calls - 1))
      invariant delay == DelayAt(policy.value, attempt)
      invariant |waits| == calls - 1
      invariant forall k: nat :: 1 <= k <= |waits| ==> waits[k - 1] == DelayAt(policy.value, k)
      decreases policy.value.count - attempt
    {
      waits := waits + [delay];
      if cancelled(attempt) {
        return;
      }
      result := run(attempt).(retries := attempt);
      calls := calls + 1;
      if result.success {
        return;
      }
      match policy.value.backoff {
        case Constant =>
        case Exponential => delay := Wrap64(delay * 2);
        case Linear => delay := Wrap64(delay + policy.value.delay);
      }
      attempt := attempt + 1;
    }
  }

  /** The description leaves no freedom: call count, result and waits are determined. */
  lemma RetryRunIsDetermined(
    run: nat -> Result, cancelled: nat -> bool, policy: Option<Policy>,
    r1: Result, c1: nat, w1: seq<int>, r2: Result, c2: nat, w2: seq<int>)
    requires IsRetryRun(run, cancelled, policy, r1, c1, w1)
    requires IsRetryRun(run, cancelled, policy, r2, c2, w2)
    ensures r1 == r2 && c1 == c2 && w1 == w2
  {
    forall k: nat | k < |w1|
      ensures w1[k] == w2[k]
    {
      assert w1[(k + 1) - 1] == DelayAt(policy.value, k + 1);
      assert w2[(k + 1) - 1] == DelayAt(policy.value, k + 1);
    }
  }

  // ----- Delays in closed form -----

  function Pow2(n: nat): nat {
    if n == 0 then 1 else 2 * Pow2(n - 1)
  }

  /** The delay before retry k in unbounded arithmetic. */
  function IdealDelay(p: Policy, k: nat): int
    requires k >= 1
  {
    match p.backoff
    case Constant => FirstDelay(p)
    case Exponential => FirstDelay(p) * Pow2(k - 1)
    case Linear => FirstDelay(p) + (k - 1) * p.delay
  }

  /** The loop's delay is the ideal one, wrapped. */
  lemma {:induction false} DelayIsWrappedIdeal(p: Policy, k: nat)
    requires k >= 1 && InInt64(p.delay)
    ensures DelayAt(p, k) == Wrap64(IdealDelay(p, k))
  {
    if k == 1 {
      assert InInt64(FirstDelay(p));
      WrapIdentityIff(FirstDelay(p));
      assert Pow2(0) == 1;
      assert IdealDelay(p, 1) == FirstDelay(p);
    } else {
      DelayIsWrappedIdeal(p, k - 1);
      IdealStep(p, k - 1);
      WrapAbsorbs(IdealDelay(p, k - 1), 2, 0);
      WrapAbsorbs(IdealDelay(p, k - 1), 1, p.delay);
    }
  }

  /** The first delay is the configured one, a second unless there is one, also in the ideal. */
  lemma FirstDelayMeaning(p: Policy)
    ensures DelayAt(p, 1) == IdealDelay(p, 1) == if p.delay == 0 then 1_000_000_000 else p.delay
  {
    assert Pow2(0) == 1;
  }

  lemma IdealStep(p: Policy, k: nat)
    requires k >= 1
    ensures
      IdealDelay(p, k + 1) ==
      match p.backoff
      case Constant => IdealDelay(p, k)
      case Exponential => IdealDelay(p, k) * 2
      case Linear => IdealDelay(p, k) + p.delay
  {
    match p.backoff {
      case Constant =>
      case Exponential =>
        assert FirstDelay(p) * (2 * Pow2(k - 1)) == FirstDelay(p) * Pow2(k - 1) * 2;
      case Linear =>
        assert k * p.delay == (k - 1) * p.delay + p.delay;
    }
  }

  lemma LinearSign(p: Policy, k: nat)
    requires k >= 1 && p.backoff.Linear?
    ensures p.delay >= 0 ==> IdealDelay(p, k) >= 0
    ensures p.delay < 0 ==> IdealDelay(p, k) < 0
  {
    if p.delay >= 0 {
      assert 0 <= (k - 1) * p.delay;
    } else {
      assert (k - 1) * p.delay <= 0;
    }
  }

  /** Ideal delays only grow in magnitude, so an early one never overflows before a late one. */
  lemma {:induction false} IdealStaysInRange(p: Policy, k: nat, n: nat)
    requires 1 <= k <= n && InInt64(IdealDelay(p, n))
    ensures InInt64(IdealDelay(p, k))
    decreases n - k
  {
    if k == n {
    } else {
      IdealStaysInRange(p, k + 1, n);
      IdealStep(p, k);
      if p.backoff.Linear? {
        LinearSign(p, k);
      }
    }
  }

  /** The first n delays are exact exactly when the n-th ideal delay fits in int64. */
  lemma NoOverflowIff(p: Policy, n: nat)
    requires n >= 1 && InInt64(p.delay)
    ensures (forall k :: 1 <= k <= n ==> DelayAt(p, k) == IdealDelay(p, k)) <==> InInt64(IdealDelay(p, n))
  {
    DelayIsWrappedIdeal(p, n);
    WrapIdentityIff(IdealDelay(p, n));
    if InInt64(IdealDelay(p, n)) {
      forall k | 1 <= k <= n
        ensures DelayAt(p, k) == IdealDelay(p, k)
      {
        IdealStaysInRange(p, k, n);
        DelayIsWrappedIdeal(p, k);
        WrapIdentityIff(IdealDelay(p, k));
      }
    }
  }

  function TotalDelay(p: Policy, n: nat): int {
    if n == 0 then 0 else TotalDelay(p, n - 1) + IdealDelay(p, n)
  }

  /** Total waiting time for n waits, in closed form (stated doubled for the linear policy). */
  lemma {:induction false} TotalDelayClosedForm(p: Policy, n: nat)
    ensures p.backoff.Constant? ==> TotalDelay(p, n) == n * FirstDelay(p)
    ensures p.backoff.Exponential? ==> TotalDelay(p, n) == FirstDelay(p) * (Pow2(n) - 1)
    ensures p.backoff.Linear? ==> 2 * TotalDelay(p, n) == 2 * n * FirstDelay(p) + n * (n - 1) * p.delay
  {
    if n == 0 {
      assert Pow2(0) == 1;
    } else {
      TotalDelayClosedForm(p, n - 1);
      match p.backoff {
        case Constant => ConstantSumStep(n, FirstDelay(p));
        case Exponential => ExponentialSumStep(n, FirstDelay(p));
        case Linear => LinearSumStep(n, FirstDelay(p), p.delay);
      }
    }
  }

  function Sum(waits: seq<int>): int {
    if waits == [] then 0 else Sum(waits[..|waits| - 1]) + waits[|waits| - 1]
  }

  lemma {:induction false} IdealWaitsSum(p: Policy, waits: seq<int>)
    requires forall k :: 0 <= k < |waits| ==> waits[k] == IdealDelay(p, k + 1)
    ensures Sum(waits) == TotalDelay(p, |waits|)
  {
    if waits == [] {
    } else {
      IdealWaitsSum(p, waits[..|waits| - 1]);
    }
  }

  /**
   The waits of a run add up to the closed form, as long as the last of them fits in int64. A wait that
   cancellation cut short counts in full: it was started with that length.
   */
  lemma WaitsAddUp(
    run: nat -> Result, cancelled: nat -> bool, p: Policy, result: Result, calls: nat, waits: seq<int>)
    requires IsRetryRun(run, cancelled, Some(p), result, calls, waits) && InInt64(p.delay)
    requires waits != [] ==> InInt64(IdealDelay(p, |waits|))
    ensures p.backoff.Constant? ==> Sum(waits) == |waits| * FirstDelay(p)
    ensures p.backoff.Exponential? ==> Sum(waits) == FirstDelay(p) * (Pow2(|waits|) - 1)
    ensures p.backoff.Linear? ==> 2 * Sum(waits) == 2 * |waits| * FirstDelay(p) + |waits| * (|waits| - 1) * p.delay
  {
    var n := |waits|;
    if n > 0 {
      NoOverflowIff(p, n);
    }
    forall k | 0 <= k < n
      ensures waits[k] == IdealDelay(p, k + 1)
    {
      assert waits[(k + 1) - 1] == DelayAt(p, k + 1);
    }
    IdealWaitsSum(p, waits);
    TotalDelayClosedForm(p, n);
  }

  lemma ConstantSumStep(n: int, d: int)
    ensures n * d == (n - 1) * d + d
  {
  }

  lemma ExponentialSumStep(n: nat, d: int)
    requires n >= 1
    ensures d * (Pow2(n) - 1) == d * (Pow2(n - 1) - 1) + d * Pow2(n - 1)
  {
    assert Pow2(n) - 1 == (Pow2(n - 1) - 1) + Pow2(n - 1);
    Distribute(Pow2(n - 1) - 1, Pow2(n - 1), d);
  }

  lemma LinearSumStep(n: int, d: int, c: int)
    ensures
      2 * n * d + n * (n - 1) * c ==
      2 * (n - 1) * d + (n - 1) * (n - 2) * c + 2 * (d + (n - 1) * c)
  {
    assert n * (n - 1) == (n - 1) * (n - 2) + 2 * (n - 1);
    Distribute((n - 1) * (n - 2), 2 * (n - 1), c);
  }

  lemma Distribute(a: int, b: int, c: int)
    ensures (a + b) * c == a * c + b * c
  {
  }
}
