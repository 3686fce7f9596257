/** `installWithRetries` of scripts/ci/npm-ci-hardening.js: attempts under a limit each and a budget in all. */
module NpmInstall {
  datatype Option<+T> = None | Some(value: T)

  const MIN_ATTEMPT_MS := 30000

  /** What a run came back with, and how long it took. */
  datatype Exit = Exit(code: Option<int>, timedOut: bool, elapsedMs: int)

  /** One attempt: the clock when its budget was worked out, when it was started, and the limit it was given. */
  datatype Ran = Ran(readAt: int, begunAt: int, boundMs: int, exit: Exit)

  datatype Reason = Succeeded | OutOfBudget | AllFailed

  datatype Limits = Limits(attempts: nat, attemptTimeoutMs: int, totalBudgetMs: int)

  /** The world of one call: the clock as it is read before attempt `k` and as attempt `k` starts, and what a run given
      that limit does. */
  datatype World = World(startedAt: int, read: nat -> int, begun: nat -> int, run: (nat, int) -> Exit)

  function Min(a: int, b: int): int {
    if a < b then a else b
  }

  predicate Good(e: Exit) {
    !e.timedOut && e.code == Some(0)
  }

  function Remaining(w: World, l: Limits, k: nat): int {
    l.totalBudgetMs - (w.read(k) - w.startedAt)
  }

  /** Attempt `k`, were it made. */
  function Attempt(w: World, l: Limits, k: nat): Ran {
    var bound := Min(l.attemptTimeoutMs, Remaining(w, l, k));
    Ran(w.read(k), w.begun(k), bound, w.run(k, bound))
  }

  /** The run is attempt `k`, and there was enough left for it. */
  predicate Granted(w: World, l: Limits, r: Ran, k: nat) {
    r == Attempt(w, l, k) && Remaining(w, l, k) >= MIN_ATTEMPT_MS
  }

  /** The runs so far: attempts 1, 2, ... in order, none with less than the minimum left, all but the last failed. */
  ghost predicate InOrder(w: World, l: Limits, runs: seq<Ran>) {
    && |runs| <= l.attempts
    && (forall i :: 0 <= i < |runs| ==> Granted(w, l, runs[i], i + 1))
    && (forall i :: 0 <= i < |runs| - 1 ==> !Good(runs[i].exit))
  }

  /** `cleans`: the attempts after which `node_modules` was removed. */
  ghost predicate CleanedBetween(runs: seq<Ran>, cleans: seq<nat>) {
    |cleans| >= |runs| - 1 && forall i :: 0 <= i < |cleans| ==> cleans[i] == i + 1
  }

  /** The last run, if there was one, failed. */
  predicate Failing(runs: seq<Ran>) {
    runs != [] ==> !Good(runs[|runs| - 1].exit)
  }

  lemma OneMore(w: World, l: Limits, runs: seq<Ran>, r: Ran)
    requires InOrder(w, l, runs) && Failing(runs) && |runs| < l.attempts
    requires Granted(w, l, r, |runs| + 1)
    ensures InOrder(w, l, runs + [r])
    ensures (runs + [r])[|runs + [r]| - 1] == r
  {
    var more := runs + [r];
    forall i | 0 <= i < |more| ensures Granted(w, l, more[i], i + 1) {
      assert i < |runs| ==> Granted(w, l, runs[i], i + 1);
    }
    forall i | 0 <= i < |more| - 1 ensures !Good(more[i].exit) {
      assert more[i] == runs[i];
    }
  }

  method InstallWithRetries(w: World, l: Limits)
      returns (ok: bool, attemptsUsed: nat, reason: Reason, runs: seq<Ran>, cleans: seq<nat>)
    ensures InOrder(w, l, runs) && CleanedBetween(runs, cleans)
    ensures attemptsUsed == |runs|
    ensures ok <==> runs != [] && var e := runs[|runs| - 1].exit; !e.timedOut && e.code == Some(0)
    ensures ok <==> reason == Succeeded
    ensures reason == OutOfBudget ==>
      |runs| < l.attempts && l.totalBudgetMs - (w.read(|runs| + 1) - w.startedAt) < 30000 && |cleans| == |runs|
    ensures forall i :: 0 <= i < |cleans| ==> cleans[i] == i + 1
    ensures reason == AllFailed ==> |runs| == l.attempts
    ensures reason != OutOfBudget && runs != [] ==> |cleans| == |runs| - 1
  {
    runs, cleans := [], [];
    var attempt := 1;
    while attempt <= l.attempts
      invariant 1 <= attempt <= l.attempts + 1
      invariant |runs| == attempt - 1 && InOrder(w, l, runs) && CleanedBetween(runs, cleans)
      invariant Failing(runs)
      invariant |cleans| == if attempt <= l.attempts then |runs| else if runs == [] then 0 else |runs| - 1
    {
      var remainingMs := l.totalBudgetMs - (w.read(attempt) - w.startedAt);
      if remainingMs < MIN_ATTEMPT_MS {
        return false, attempt - 1, OutOfBudget, runs, cleans;
      }
      var boundMs := Min(l.attemptTimeoutMs, remainingMs);
      var exit := w.run(attempt, boundMs);
      var ran := Ran(w.read(attempt), w.begun(attempt), boundMs, exit);
      OneMore(w, l, runs, ran);
      runs := runs + [ran];
      if !exit.timedOut && exit.code == Some(0) {
        return true, attempt, Succeeded, runs, cleans;
      }
      if attempt < l.attempts {
        cleans := cleans + [attempt];
      }
      attempt := attempt + 1;
    }
    return false, l.attempts, AllFailed, runs, cleans;
  }

  /** What the runs are, attempt by attempt: made with at least half a minute left, under the smaller of the attempt's
      own limit and what is left, and all but the last timed out or failed. */
  lemma RunsAre(w: World, l: Limits, runs: seq<Ran>, i: nat)
    requires InOrder(w, l, runs) && i < |runs|
    ensures var left := l.totalBudgetMs - (w.read(i + 1) - w.startedAt); var r := runs[i];
      && left >= 30000 && r.boundMs <= left && r.boundMs <= l.attemptTimeoutMs
      && (r.boundMs == left || r.boundMs == l.attemptTimeoutMs)
      && r.readAt == w.read(i + 1) && r.begunAt == w.begun(i + 1) && r.exit == w.run(i + 1, r.boundMs)
      && (i < |runs| - 1 ==> r.exit.timedOut || r.exit.code != Some(0))
  {
    assert Granted(w, l, runs[i], i + 1);
    assert i < |runs| - 1 ==> !Good(runs[i].exit);
  }

  /** If a run keeps to the limit it was given, it ends within the budget, counted from the start of the step, give or
      take the time between reading the clock and starting the run; and no limit is longer than the attempt's own. */
  lemma EndsInBudget(w: World, l: Limits, runs: seq<Ran>, i: nat)
    requires InOrder(w, l, runs) && i < |runs| && runs[i].exit.elapsedMs <= runs[i].boundMs
    ensures runs[i].begunAt + runs[i].exit.elapsedMs - w.startedAt
      <= l.totalBudgetMs + (runs[i].begunAt - runs[i].readAt)
    ensures runs[i].begunAt == runs[i].readAt ==>
      runs[i].begunAt + runs[i].exit.elapsedMs - w.startedAt <= l.totalBudgetMs
    ensures runs[i].boundMs <= l.attemptTimeoutMs
    ensures runs[i].boundMs <= l.totalBudgetMs - (runs[i].readAt - w.startedAt)
    ensures runs[i].boundMs >= MIN_ATTEMPT_MS || runs[i].boundMs == l.attemptTimeoutMs
  {
    assert Granted(w, l, runs[i], i + 1);
  }
}
