/** What each failure comes to: whether it is tried again, after how long, and what a run ends in. */
module RetryLaws {
  import opened Text
  import opened Retry

  /** The failure behind any number of exhausted runs. */
  function Root(e: Error): Error
    decreases e
  {
    if e.RetriesExhausted? then Root(e.last) else e
  }

  /** A connection that failed on the way, or an answer that may be different next time. */
  predicate Passing(e: Error) { var root := Root(e); (root.Http? && root.transient) || (root.Api? && root.retryable) }

  /** The wait the server named. */
  function Named(e: Error): Option<Duration> { var root := Root(e); if root.Api? then root.retryAfter else None }

  /** The schedule starts at the initial delay and doubles it behind every further attempt, up to the cap. */
  lemma ScheduleDoubles(policy: Policy, n: nat)
    requires 0 < n < 32
    ensures BackoffForAttempt(policy, 1) == Some(Min(policy.initialBackoff, policy.maxBackoff))
    ensures var now, next := BackoffForAttempt(policy, n), BackoffForAttempt(policy, n + 1);
            now.Some? && next == Some(Min(now.value + now.value, policy.maxBackoff))
  {
    BackoffIsCappedDoubling(policy, 1);
    BackoffIsCappedDoubling(policy, n);
    BackoffIsCappedDoubling(policy, n + 1);
    hide BackoffForAttempt;
    assert TwoTo(n) == TwoTo(n - 1) + TwoTo(n - 1);
    TimesTwice(policy.initialBackoff, TwoTo(n - 1));
  }

  lemma TimesTwice(k: nat, a: nat)
    ensures k * (a + a) == k * a + k * a
  {
  }

  lemma {:induction false} RootDecides(e: Error)
    ensures Retryable(e) <==> Passing(e)
    ensures RetryAfter(e) == Named(e)
    decreases e
  {
    match e
    case RetriesExhausted(_, last) => RootDecides(last);
    case _ =>
  }

  /**
   * A failure behind attempt number `n` is followed by another attempt exactly if it may pass, retries are
   * left, and the server named a wait of a minute at most, or none and the schedule reaches that far.
   */
  lemma TriedAgain(policy: Policy, o: Outcome, n: nat)
    requires n > 0
    ensures GoesOn(policy, o, n) <==>
              && o.Failure? && Passing(o.error) && n <= policy.maxRetries
              && match Named(o.error)
                 case Some(wait) => wait <= 60_000_000_000
                 case None => n <= 32
  {
    if o.Failure? {
      RootDecides(o.error);
    }
    BackoffIsCappedDoubling(policy, n);
    hide Passing, Named, Retryable, RetryAfter, BackoffForAttempt, TwoTo;
  }

  /** Each sleep is the wait the server named, to the nanosecond, or the schedule's where it named none. */
  lemma SleepsAsTold(policy: Policy, trace: seq<Outcome>, result: Outcome, sends: nat, sleeps: seq<Duration>, i: nat)
    requires IsRun(policy, trace, result, sends, sleeps) && i < |sleeps|
    ensures trace[i].Failure?
    ensures match Named(trace[i].error)
            case Some(wait) => sleeps[i] == wait <= 60_000_000_000
            case None => sleeps[i] == Min(policy.initialBackoff * TwoTo(i), policy.maxBackoff)
  {
    assert GoesOn(policy, trace[i], i + 1);
    assert Wait(policy, trace[i].error, i + 1) == Some(sleeps[i]);
    RootDecides(trace[i].error);
    TriedAgain(policy, trace[i], i + 1);
    BackoffIsCappedDoubling(policy, i + 1);
    hide GoesOn, Named, Passing, RetryAfter, Retryable, BackoffForAttempt, TwoTo;
  }

  /**
   * A run ends in success with its last answer, in a failure that cannot pass as it came, and otherwise in
   * that failure as exhausted: with no retries left, or with a longer wait named than a minute. Only a
   * schedule that does not reach ends it in the overflow error.
   */
  lemma RunsEndIn(policy: Policy, trace: seq<Outcome>, result: Outcome, sends: nat, sleeps: seq<Duration>)
    requires IsRun(policy, trace, result, sends, sleeps)
    ensures var last := trace[sends - 1];
            if last.Success? then result == Success
            else if !Passing(last.error) then result == last
            else if sends > policy.maxRetries || (Named(last.error).Some? && Named(last.error).value > 60_000_000_000)
            then result == Failure(RetriesExhausted(sends, last.error))
            else sends > 32 && Named(last.error) == None
                 && result == Failure(BackoffOverflow(sends, policy.initialBackoff))
  {
    var last := trace[sends - 1];
    TriedAgain(policy, last, sends);
    if last.Failure? {
      RootDecides(last.error);
    }
    hide GoesOn, Named, Passing, RetryAfter, Retryable;
  }
}
