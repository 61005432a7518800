/** The retry loop of pkg/gateway/http_client.go. */
module HttpClient {
  import opened Basics

  // Durations are held in 64 bits.
  predicate IsInt64(x: int) {
    -TwoTo63 <= x < TwoTo63
  }

  // The int64 a result wraps to.
  function Wrap(x: int): (w: int)
    ensures IsInt64(w) && (IsInt64(x) ==> w == x)
  {
    (x + TwoTo63) % TwoTo64 - TwoTo63
  }

  function PowerOfTwo(k: nat): nat {
    if k == 0 then 1 else 2 * PowerOfTwo(k - 1)
  }

  datatype RetryPolicy = RetryPolicy(maxRetries: int, baseDelay: int, maxDelay: int)

  const DefaultRetryPolicy := RetryPolicy(3, 100_000_000, 2_000_000_000)

  function CalculateBackoff(p: RetryPolicy, attempt: nat): (delay: int)
    requires attempt >= 1
    ensures delay <= p.maxDelay
  {
    Min(Wrap(p.baseDelay * Wrap(PowerOfTwo(attempt - 1))), p.maxDelay)
  }

  // The delay the policy means: doubled for each retry, capped.
  function Ideal(p: RetryPolicy, attempt: nat): int
    requires attempt >= 1
  {
    Min(p.baseDelay * PowerOfTwo(attempt - 1), p.maxDelay)
  }

  predicate Fits(p: RetryPolicy, attempt: nat) {
    attempt >= 1 && p.baseDelay * PowerOfTwo(attempt - 1) < TwoTo63
  }

  lemma PowerPositive(k: nat)
    ensures PowerOfTwo(k) >= 1
  {}

  lemma FactorFits(base: int, factor: nat)
    requires base >= 1 && base * factor < TwoTo63
    ensures factor < TwoTo63
  {
    MulGrows(factor, 1, base);
    assert factor * base == base * factor;
  }

  /** While the doubled delay fits in 64 bits the backoff is the ideal one. */
  lemma BackoffIsIdeal(p: RetryPolicy, attempt: nat)
    requires p.baseDelay >= 0 && Fits(p, attempt)
    ensures CalculateBackoff(p, attempt) == Ideal(p, attempt)
  {
    var factor := PowerOfTwo(attempt - 1);
    PowerPositive(attempt - 1);
    if p.baseDelay >= 1 {
      FactorFits(p.baseDelay, factor);
      assert 0 <= p.baseDelay * factor;
    }
  }

  lemma {:induction false} PowerGrows(j: nat, k: nat)
    requires j <= k
    ensures PowerOfTwo(j) <= PowerOfTwo(k)
  {
    if j < k { PowerGrows(j, k - 1); }
  }

  /** Later retries never wait less. */
  lemma BackoffNondecreasing(p: RetryPolicy, j: nat, k: nat)
    requires p.baseDelay >= 1 && 1 <= j <= k && Fits(p, k)
    ensures CalculateBackoff(p, j) <= CalculateBackoff(p, k)
  {
    PowerGrows(j - 1, k - 1);
    MulGrows(p.baseDelay, PowerOfTwo(j - 1), PowerOfTwo(k - 1));
    BackoffIsIdeal(p, j);
    BackoffIsIdeal(p, k);
  }

  lemma MulGrows(base: int, a: nat, b: nat)
    requires base >= 0 && a <= b
    ensures base * a <= base * b
  {}

  // ---------- When the loop's delays are the intended ones ----------

  // The first retry whose doubled delay does not fit.
  lemma FirstMisfit(p: RetryPolicy, k: nat) returns (first: nat)
    requires 1 <= p.baseDelay < TwoTo63 && k >= 1 && !Fits(p, k)
    ensures 2 <= first <= k && !Fits(p, first) && Fits(p, first - 1)
    decreases k
  {
    assert PowerOfTwo(0) == 1;
    if Fits(p, k - 1) || k == 1 {
      first := k;
    } else {
      first := FirstMisfit(p, k - 1);
    }
  }

  // It wraps to a negative delay: the exact value lies between 2^63 and 2^64.
  lemma MisfitWraps(p: RetryPolicy, k: nat)
    requires p.baseDelay >= 1 && k >= 2 && !Fits(p, k) && Fits(p, k - 1)
    ensures CalculateBackoff(p, k) < 0
  {
    var half := PowerOfTwo(k - 2);
    var exact := p.baseDelay * (2 * half);
    PowerPositive(k - 2);
    FactorFits(p.baseDelay, half);
    assert exact == 2 * (p.baseDelay * half);
    MulAtLeastTwice(p.baseDelay, half);
  }

  // Where the doubling itself overflows, the base delay is one.
  lemma MulAtLeastTwice(base: int, half: nat)
    ensures base >= 2 ==> base * half >= 2 * half
  {
    if base >= 2 {
      MulGrows(half, 2, base);
      assert base * half == half * base;
    }
  }

  /**
    The delays of all the retries a policy allows are the intended ones exactly when
    the last of them fits in 64 bits: the first that does not is negative.
   */
  lemma BackoffExact(p: RetryPolicy)
    requires 1 <= p.baseDelay < TwoTo63 && p.maxDelay >= 0 && p.maxRetries >= 1
    ensures (forall k: nat :: 1 <= k <= p.maxRetries ==> CalculateBackoff(p, k) == Ideal(p, k)) <==>
            Fits(p, p.maxRetries)
  {
    if Fits(p, p.maxRetries) {
      forall k: nat | 1 <= k <= p.maxRetries ensures CalculateBackoff(p, k) == Ideal(p, k) {
        PowerGrows(k - 1, p.maxRetries - 1);
        MulGrows(p.baseDelay, PowerOfTwo(k - 1), PowerOfTwo(p.maxRetries - 1));
        BackoffIsIdeal(p, k);
      }
    } else {
      var k := FirstMisfit(p, p.maxRetries);
      MisfitWraps(p, k);
      IdealNonnegative(p, k);
    }
  }

  lemma IdealNonnegative(p: RetryPolicy, k: nat)
    requires p.baseDelay >= 0 && p.maxDelay >= 0 && k >= 1
    ensures Ideal(p, k) >= 0
  {
    MulGrows(p.baseDelay, 0, PowerOfTwo(k - 1));
  }

  /** The default policy is one of those whose delays are the intended ones. */
  lemma DefaultFits()
    ensures Fits(DefaultRetryPolicy, DefaultRetryPolicy.maxRetries)
    ensures TotalWait(DefaultRetryPolicy, DefaultRetryPolicy.maxRetries) == 700_000_000
  {
    var p := DefaultRetryPolicy;
    assert PowerOfTwo(0) == 1 && PowerOfTwo(1) == 2 && PowerOfTwo(2) == 4;
    BackoffIsIdeal(p, 1);
    BackoffIsIdeal(p, 2);
    BackoffIsIdeal(p, 3);
    assert TotalWait(p, 1) == 100_000_000 && TotalWait(p, 2) == 300_000_000;
  }

  // A base delay of 2^62 nanoseconds, capped at 1000, with two retries.
  const OverflowingPolicy := RetryPolicy(2, 0x4000_0000_0000_0000, 1_000)

  /** The waits of a policy before it reaches its cap, and at it. */
  lemma WaitsDouble()
    ensures var p := RetryPolicy(5, 100, 1_000);
            Wait(p, 1) == 100 && Wait(p, 2) == 200 && Wait(p, 3) == 400 && Wait(p, 4) == 800 && Wait(p, 5) == 1_000
  {
    assert PowerOfTwo(0) == 1 && PowerOfTwo(1) == 2 && PowerOfTwo(2) == 4 && PowerOfTwo(3) == 8 && PowerOfTwo(4) == 16;
  }

  /** A policy whose second retry, which the loop does make, comes at once instead of after the cap. */
  lemma BackoffOverflows()
    ensures CalculateBackoff(OverflowingPolicy, 2) < 0 && Ideal(OverflowingPolicy, 2) == 1_000
    ensures OverflowingPolicy.maxRetries >= 2 && Wait(OverflowingPolicy, 2) == 0
  {
    assert PowerOfTwo(0) == 1 && PowerOfTwo(1) == 2;
    MisfitWraps(OverflowingPolicy, 2);
  }

  /** A later delay that does not fit can come out right again by accident. */
  lemma LaterMisfitCanAgree()
    ensures var p := RetryPolicy(3, 0x5000_0000_0000_0000, 1_000);
            !Fits(p, 3) && CalculateBackoff(p, 3) == Ideal(p, 3)
  {
    assert PowerOfTwo(0) == 1 && PowerOfTwo(1) == 2 && PowerOfTwo(2) == 4;
  }

  // ---------- The retry loop ----------

  // What the k-th attempt meets: the context may end during the wait before it,
  // and again by the time its request has failed.
  datatype Attempt = Attempt(endsWaiting: bool, reply: Result<string, string>, endedAfter: bool)

  datatype CallError = ContextEnded | Exhausted

  // A timer for a negative delay fires at once.
  function Wait(p: RetryPolicy, attempt: nat): nat
    requires attempt >= 1
  {
    Max(CalculateBackoff(p, attempt), 0)
  }

  // The waits before attempts 1 to n.
  function TotalWait(p: RetryPolicy, n: nat): nat {
    if n == 0 then 0 else TotalWait(p, n - 1) + Wait(p, n)
  }

  lemma OneMore(n: nat, each: nat, last: nat)
    requires n > 0 && last <= each
    ensures (n - 1) * each + last <= n * each
  {}

  lemma {:induction false} TotalWaitBounded(p: RetryPolicy, n: nat)
    requires p.maxDelay >= 0
    ensures TotalWait(p, n) <= n * p.maxDelay
  {
    if n > 0 {
      TotalWaitBounded(p, n - 1);
      OneMore(n, p.maxDelay, Wait(p, n));
    }
  }

  // Attempts 0 to n-1 were all made and failed, with the context still alive.
  ghost predicate FailedUpTo(attempts: nat -> Attempt, n: nat) {
    forall k: nat :: k < n ==>
      attempts(k).reply.Err? && !attempts(k).endedAfter && (k > 0 ==> !attempts(k).endsWaiting)
  }

  /**
    Makes requests until one succeeds, the context ends, or the retries are used
    up. `requests` counts the requests made, `waited` the time spent between them.
   */
  method CallMCP(p: RetryPolicy, attempts: nat -> Attempt)
    returns (r: Result<string, CallError>, requests: nat, waited: nat)
    ensures requests <= Max(p.maxRetries + 1, 0)
    ensures waited <= Max(p.maxRetries, 0) * Max(p.maxDelay, 0)
    ensures waited == if requests == 0 then 0 else TotalWait(p, requests - 1)
    ensures forall k: nat :: k + 1 < requests ==>
      attempts(k).reply.Err? && !attempts(k).endedAfter && (k > 0 ==> !attempts(k).endsWaiting)
    ensures r.Ok? ==> requests > 0 && attempts(requests - 1).reply == Ok(r.value)
    ensures requests > 1 ==> !attempts(requests - 1).endsWaiting
    ensures r == Err(Exhausted) ==> requests == Max(p.maxRetries + 1, 0) && FailedUpTo(attempts, requests)
    ensures r == Err(Exhausted) && requests > 0 ==>
      attempts(requests - 1).reply.Err? && !attempts(requests - 1).endedAfter
    ensures r == Err(ContextEnded) ==> requests > 0
    ensures r == Err(ContextEnded) ==>
      || (attempts(requests - 1).reply.Err? && attempts(requests - 1).endedAfter)
      || (attempts(requests - 1).reply.Err? && !attempts(requests - 1).endedAfter
          && requests <= p.maxRetries && attempts(requests).endsWaiting)
  {
    var attempt := 0;
    waited := 0;
    while attempt <= p.maxRetries
      invariant 0 <= attempt <= Max(p.maxRetries + 1, 0)
      invariant FailedUpTo(attempts, attempt)
      invariant waited == TotalWait(p, if attempt == 0 then 0 else attempt - 1)
    {
      if attempt > 0 {
        if attempts(attempt).endsWaiting {
          WaitBound(p, attempt - 1);
          return Err(ContextEnded), attempt, waited;
        }
        waited := waited + Wait(p, attempt);
      }
      WaitBound(p, attempt);
      if attempts(attempt).reply.Ok? {
        return Ok(attempts(attempt).reply.value), attempt + 1, waited;
      }
      if attempts(attempt).endedAfter {
        return Err(ContextEnded), attempt + 1, waited;
      }
      attempt := attempt + 1;
    }
    if attempt > 0 { WaitBound(p, attempt - 1); }
    return Err(Exhausted), attempt, waited;
  }

  lemma WaitBound(p: RetryPolicy, n: nat)
    requires n <= p.maxRetries
    ensures TotalWait(p, n) <= p.maxRetries * Max(p.maxDelay, 0)
  {
    var capped := p.(maxDelay := Max(p.maxDelay, 0));
    SameWait(p, capped, n);
    TotalWaitBounded(capped, n);
    MulGrows(capped.maxDelay, n, p.maxRetries);
  }

  // A negative cap waits as little as a zero one.
  lemma {:induction false} SameWait(p: RetryPolicy, capped: RetryPolicy, n: nat)
    requires capped == p.(maxDelay := Max(p.maxDelay, 0))
    ensures TotalWait(p, n) <= TotalWait(capped, n)
  {
    if n > 0 { SameWait(p, capped, n - 1); }
  }
}
