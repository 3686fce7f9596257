/** `withRetry`, its delays and its verdict on errors, from scripts/lib/fetch-with-retry.js. */
module Retry {
  datatype Option<+T> = None | Some(value: T)

  const MAX_ATTEMPTS := 4
  const BASE_DELAY_MS := 1000
  const BACKOFF_FACTOR := 3
  const JITTER_RATIO := 0.25
  const RETRY_AFTER_CAP_MS := 60000

  // ---------------------------------------------------------------- the verdict on an error

  /** `code`, `message`: whether the error's code is in the table, and its message matches the pattern. */
  datatype Error = Error(
    retryable: Option<bool>, status: Option<int>, code: bool, message: bool, cause: Option<Error>,
    retryAfterMs: Option<int>)

  predicate IsRetryableStatus(status: int) {
    status == 429 || 500 <= status <= 599
  }

  predicate IsRetryableError(e: Error, depth: nat)
    decreases e
  {
    if depth > 3 then false
    else if e.retryable.Some? then e.retryable.value
    else if e.status.Some? then IsRetryableStatus(e.status.value)
    else if e.code then true
    else if e.cause.Some? && IsRetryableError(e.cause.value, depth + 1) then true
    else e.message
  }

  /** The error `k` causes down. */
  function CauseAt(e: Error, k: nat): Option<Error> {
    if k == 0 then Some(e) else if e.cause.None? then None else CauseAt(e.cause.value, k - 1)
  }

  /** An error that neither carries a flag nor a status leaves the question to its cause and its message. */
  predicate Undecided(e: Error) {
    e.retryable.None? && e.status.None?
  }

  predicate SaysYes(e: Error) {
    if e.retryable.Some? then e.retryable.value
    else if e.status.Some? then IsRetryableStatus(e.status.value)
    else e.code || e.message
  }

  ghost predicate YesAt(e: Error, k: nat) {
    && CauseAt(e, k).Some? && SaysYes(CauseAt(e, k).value)
    && forall j :: 0 <= j < k ==> CauseAt(e, j).Some? && Undecided(CauseAt(e, j).value)
  }

  lemma YesBelow(e: Error, k: nat)
    requires e.cause.Some? && Undecided(e)
    ensures YesAt(e, k + 1) <==> YesAt(e.cause.value, k)
  {
    if YesAt(e, k + 1) {
      forall j | 0 <= j < k ensures CauseAt(e.cause.value, j).Some? && Undecided(CauseAt(e.cause.value, j).value) {
        assert CauseAt(e, j + 1) == CauseAt(e.cause.value, j);
      }
    }
    if YesAt(e.cause.value, k) {
      forall j | 0 <= j < k + 1 ensures CauseAt(e, j).Some? && Undecided(CauseAt(e, j).value) {
        assert j > 0 ==> CauseAt(e, j) == CauseAt(e.cause.value, j - 1);
      }
    }
  }

  /** The recursion over causes comes to this: some error at most three causes down says yes by itself, and none above
      it carries a flag or a status of its own. */
  lemma {:induction false} RetryableMeans(e: Error, depth: nat)
    requires depth <= 4
    ensures IsRetryableError(e, depth) <==> exists k :: 0 <= k <= 3 - depth && YesAt(e, k)
    decreases e
  {
    if depth <= 3 {
      if Undecided(e) && e.cause.Some? {
        RetryableMeans(e.cause.value, depth + 1);
        forall k: nat ensures YesAt(e, k + 1) <==> YesAt(e.cause.value, k) {
          YesBelow(e, k);
        }
      }
      assert YesAt(e, 0) <==> SaysYes(e);
      forall k | 0 < k && YesAt(e, k)
        ensures Undecided(e) && e.cause.Some?
      {
        assert CauseAt(e, 0) == Some(e);
      }
      if IsRetryableError(e, depth) && !SaysYes(e) {
        var k :| 0 <= k <= 3 - (depth + 1) && YesAt(e.cause.value, k);
        assert YesAt(e, k + 1);
      }
      forall k | 0 < k <= 3 - depth && YesAt(e, k)
        ensures IsRetryableError(e, depth)
      {
        assert YesAt(e, (k - 1) + 1);
        assert YesAt(e.cause.value, k - 1);
      }
    }
  }

  /** What a status says, for an error with nothing else to go by: later, or the server's own problem. */
  lemma StatusDecides(e: Error, status: int)
    requires e.retryable.None? && e.status == Some(status)
    ensures IsRetryableError(e, 0) <==> status == 429 || 500 <= status <= 599
  {
  }

  /** A flag on the error wins over all else. */
  lemma FlagDecides(e: Error, flag: bool)
    requires e.retryable == Some(flag)
    ensures IsRetryableError(e, 0) == flag
  {
  }

  // ---------------------------------------------------------------- delays

  function Power(k: nat): nat {
    if k == 0 then 1 else BACKOFF_FACTOR * Power(k - 1)
  }

  function Nominal(attempt: nat): nat
    requires attempt >= 1
  {
    BASE_DELAY_MS * Power(attempt - 1)
  }

  /** `Math.round(nominal * (1 + JITTER_RATIO * random()))` */
  function Jittered(attempt: nat, random: real): int
    requires attempt >= 1
  {
    (Nominal(attempt) as real * (1.0 + JITTER_RATIO * random) + 0.5).Floor
  }

  function DelayForAttempt(attempt: nat, retryAfterMs: Option<int>, random: real): int
    requires attempt >= 1
  {
    var jittered := Jittered(attempt, random);
    if retryAfterMs.Some? && retryAfterMs.value > jittered then Min(retryAfterMs.value, RETRY_AFTER_CAP_MS)
    else jittered
  }

  function Min(a: int, b: int): int {
    if a < b then a else b
  }

  function Max(a: int, b: int): int {
    if a < b then b else a
  }

  predicate Draw(random: real) {
    0.0 <= random < 1.0
  }

  lemma ScaledBounds(n: real, random: real)
    requires Draw(random) && n >= 0.0
    ensures n <= n * (1.0 + JITTER_RATIO * random) <= 1.25 * n
  {
    var j := JITTER_RATIO * random;
    assert 0.0 <= j <= 0.25;
    assert n * (1.0 + j) == n + n * j;
    assert 0.0 <= n * j <= n * 0.25;
  }

  /** A step lies between its nominal length and a quarter more, rounded. */
  lemma JitterBounds(attempt: nat, random: real)
    requires attempt >= 1 && Draw(random)
    ensures Nominal(attempt) <= Jittered(attempt, random) <= (1.25 * Nominal(attempt) as real + 0.5).Floor
  {
    ScaledBounds(Nominal(attempt) as real, random);
  }

  /** The step is that share of the nominal length, rounded to the nearest, whatever the draw. */
  lemma JitterRounds(attempt: nat, random: real)
    requires attempt >= 1
    ensures var exact := Nominal(attempt) as real * (1.0 + 0.25 * random);
      exact - 0.5 < Jittered(attempt, random) as real <= exact + 0.5
  {
  }

  /** One second at first, and three times as long each time. */
  lemma NominalTriples(attempt: nat)
    requires attempt >= 1
    ensures Nominal(1) == 1000 && Nominal(attempt + 1) == 3 * Nominal(attempt)
  {
  }

  lemma NoRetryAfter(attempt: nat, random: real)
    requires attempt >= 1
    ensures DelayForAttempt(attempt, None, random) == Jittered(attempt, random)
  {
  }

  /** While the step is within the cap the delay is the longer of the step and the capped `Retry-After`; past the cap
      that holds only if the server does not ask for longer than the step. */
  lemma DelayIsLonger(attempt: nat, retryAfterMs: int, random: real)
    requires attempt >= 1
    ensures DelayForAttempt(attempt, Some(retryAfterMs), random)
        == Max(Jittered(attempt, random), Min(retryAfterMs, RETRY_AFTER_CAP_MS))
      <==> Jittered(attempt, random) <= RETRY_AFTER_CAP_MS || retryAfterMs <= Jittered(attempt, random)
  {
  }

  /** The family shut out is not empty: before the sixth attempt a server that asks for longer shortens the wait. */
  lemma LongerRetryAfterCanShorten()
    ensures Jittered(5, 0.0) == 81000 && DelayForAttempt(5, Some(100000), 0.0) == 60000
  {
    assert Power(4) == 3 * Power(3) && Power(3) == 3 * Power(2) && Power(2) == 3 * Power(1) && Power(1) == 3 * Power(0);
  }

  lemma FirstDelays(attempt: nat, retryAfterMs: Option<int>, random: real)
    requires 1 <= attempt <= 3 && Draw(random)
    ensures 0 <= DelayForAttempt(attempt, retryAfterMs, random) <= RETRY_AFTER_CAP_MS
  {
    JitterBounds(attempt, random);
    assert Power(2) == 3 * Power(1) && Power(1) == 3 * Power(0);
  }

  // ---------------------------------------------------------------- the loop

  datatype Outcome<T> = Done(value: T) | Threw(error: Error)

  /** `exhaustedError`: the attempt named, out of how many, and whether it was retried. */
  datatype Result<T> = Returned(value: T) | Failed(error: Error, attempt: nat, attempts: nat, retried: bool)

  function AttemptsOf(option: nat): nat {
    if option == 0 then MAX_ATTEMPTS else option
  }

  /** The wait after call `k`. */
  predicate Slept<T>(fn: nat -> Outcome<T>, random: nat -> real, k: nat, ms: int) {
    k >= 1 && fn(k).Threw? && ms == DelayForAttempt(k, fn(k).error.retryAfterMs, random(k))
  }

  ghost predicate SleptRight<T>(fn: nat -> Outcome<T>, random: nat -> real, sleeps: seq<int>) {
    forall i :: 0 <= i < |sleeps| ==> Slept(fn, random, i + 1, sleeps[i])
  }

  /** `calls`, `sleeps`: the attempts made and the waits between them. Every call but the last threw an error worth
      retrying; the last returned, or threw one that is not, or was the last allowed. */
  method WithRetry<T>(fn: nat -> Outcome<T>, option: nat, retryable: Error -> bool, random: nat -> real)
      returns (r: Result<T>, calls: seq<nat>, sleeps: seq<int>)
    ensures 1 <= |calls| <= (if option == 0 then 4 else option) && |sleeps| == |calls| - 1
    ensures forall i :: 0 <= i < |calls| ==> calls[i] == i + 1
    ensures forall j :: 1 <= j < |calls| ==> fn(j).Threw? && retryable(fn(j).error)
    ensures fn(|calls|).Threw? && retryable(fn(|calls|).error) ==> |calls| == if option == 0 then 4 else option
    ensures forall i :: 0 <= i < |sleeps| ==>
      fn(i + 1).Threw? && sleeps[i] == DelayForAttempt(i + 1, fn(i + 1).error.retryAfterMs, random(i + 1))
    ensures r == match fn(|calls|)
      case Done(value) => Returned(value)
      case Threw(error) => Failed(error, |calls|, if option == 0 then 4 else option, retryable(error))
  {
    var attempts := AttemptsOf(option);
    calls, sleeps := [], [];
    var attempt := 1;
    while attempt <= attempts
      invariant 1 <= attempt <= attempts
      invariant |calls| == attempt - 1 && |sleeps| == attempt - 1
      invariant forall i :: 0 <= i < |calls| ==> calls[i] == i + 1
      invariant forall j :: 1 <= j < attempt ==> fn(j).Threw? && retryable(fn(j).error)
      invariant SleptRight(fn, random, sleeps)
      decreases attempts - attempt
    {
      calls := calls + [attempt];
      var outcome := fn(attempt);
      if outcome.Done? {
        return Returned(outcome.value), calls, sleeps;
      }
      if !retryable(outcome.error) {
        return Failed(outcome.error, attempt, attempts, false), calls, sleeps;
      }
      if attempt == attempts {
        return Failed(outcome.error, attempts, attempts, true), calls, sleeps;
      }
      sleeps := sleeps + [DelayForAttempt(attempt, outcome.error.retryAfterMs, random(attempt))];
      attempt := attempt + 1;
    }
    assert false;
  }

  function Sum(xs: seq<int>): int {
    if xs == [] then 0 else Sum(xs[..|xs| - 1]) + xs[|xs| - 1]
  }

  lemma {:induction false} SumAtMost(xs: seq<int>, each: int)
    requires forall i :: 0 <= i < |xs| ==> xs[i] <= each
    ensures Sum(xs) <= each * |xs|
  {
    if xs != [] {
      SumAtMost(xs[..|xs| - 1], each);
      assert each * |xs| == each * (|xs| - 1) + each;
    }
  }

  /** With the default four attempts, whatever the servers ask for and however the dice fall, a caller never waits more
      than three minutes in all. */
  lemma FourAttemptsWaitThreeMinutes<T>(fn: nat -> Outcome<T>, random: nat -> real, sleeps: seq<int>)
    requires SleptRight(fn, random, sleeps) && |sleeps| < MAX_ATTEMPTS && forall k :: Draw(random(k))
    ensures Sum(sleeps) <= 180000
  {
    forall i | 0 <= i < |sleeps| ensures sleeps[i] <= RETRY_AFTER_CAP_MS {
      assert Slept(fn, random, i + 1, sleeps[i]);
      FirstDelays(i + 1, fn(i + 1).error.retryAfterMs, random(i + 1));
    }
    SumAtMost(sleeps, RETRY_AFTER_CAP_MS);
  }
}
