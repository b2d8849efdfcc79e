/**
 * Capped exponential backoff and the retry loop. Durations are nanoseconds up to the largest a
 * `Duration` holds; what sending and checking come to is read off a list of outcomes.
 */
module Retry {
  import opened Text

  const U32_MAX := 0xFFFF_FFFF
  const SECOND := 1_000_000_000
  const DURATION_MAX := 0x1_0000_0000_0000_0000 * SECOND - 1
  const MAX_HONOURED_RETRY_AFTER := 60 * SECOND

  type Duration = d: nat | d <= DURATION_MAX

  datatype Policy = Policy(maxRetries: nat, initialBackoff: Duration, maxBackoff: Duration)

  datatype Error =
    | Http(transient: bool)
    | Api(retryable: bool, retryAfter: Option<Duration>)
    | Terminal
    | BackoffOverflow(attempt: nat, baseDelay: Duration)
    | RetriesExhausted(attempts: nat, last: Error)

  datatype Outcome = Success | Failure(error: Error)

  predicate Retryable(e: Error) {
    match e
    case Http(transient) => transient
    case Api(retryable, _) => retryable
    case RetriesExhausted(_, last) => Retryable(last)
    case Terminal => false
    case BackoffOverflow(_, _) => false
  }

  function RetryAfter(e: Error): Option<Duration> {
    match e
    case Api(_, retryAfter) => retryAfter
    case RetriesExhausted(_, last) => RetryAfter(last)
    case Http(_) => None
    case Terminal => None
    case BackoffOverflow(_, _) => None
  }

  // ----- backoff -----

  function TwoTo(n: nat): nat { if n == 0 then 1 else 2 * TwoTo(n - 1) }

  /** `1_u32.checked_shl(n)`: shifting by the width or more is refused. */
  function CheckedShl(n: nat): Option<nat> { if n < 32 then Some(TwoTo(n)) else None }

  function CheckedMul(d: Duration, k: nat): Option<Duration> {
    if d * k <= DURATION_MAX then Some(d * k) else None
  }

  /** The delay behind attempt number `attempt`, or none where the shift overflows. */
  function BackoffForAttempt(policy: Policy, attempt: nat): Option<Duration> {
    match CheckedShl(if attempt == 0 then 0 else attempt - 1)
    case None => None
    case Some(multiplier) =>
      match CheckedMul(policy.initialBackoff, multiplier)
      case None => Some(policy.maxBackoff)
      case Some(delay) => Some(Min(delay, policy.maxBackoff))
  }

  /** Overflow protection costs nothing: the delay is the capped power of two over unbounded numbers. */
  lemma BackoffIsCappedDoubling(policy: Policy, attempt: nat)
    requires attempt > 0
    ensures BackoffForAttempt(policy, attempt) ==
            if attempt <= 32 then Some(Min(policy.initialBackoff * TwoTo(attempt - 1), policy.maxBackoff)) else None
  {
    hide TwoTo;
    var product := policy.initialBackoff * TwoTo(attempt - 1);
    if product > DURATION_MAX {
      assert policy.maxBackoff <= DURATION_MAX;
    }
  }

  lemma {:induction false} TwoToGrows(a: nat, b: nat)
    requires a <= b
    ensures TwoTo(a) <= TwoTo(b)
  {
    if a < b {
      TwoToGrows(a, b - 1);
    }
  }

  lemma BackoffNeverShrinks(policy: Policy, a: nat, b: nat)
    requires 0 < a <= b <= 32
    ensures BackoffForAttempt(policy, a).Some? && BackoffForAttempt(policy, b).Some?
    ensures BackoffForAttempt(policy, a).value <= BackoffForAttempt(policy, b).value <= policy.maxBackoff
  {
    BackoffIsCappedDoubling(policy, a);
    BackoffIsCappedDoubling(policy, b);
    TwoToGrows(a - 1, b - 1);
    hide BackoffForAttempt, TwoTo;
    TimesGrows(policy.initialBackoff, TwoTo(a - 1), TwoTo(b - 1));
  }

  lemma TimesGrows(k: nat, a: nat, b: nat)
    requires a <= b
    ensures k * a <= k * b
  {
  }

  // ----- the loop -----

  /** Behind a retryable failure: wait so long, or stop. The server's wait wins over the schedule. */
  function Wait(policy: Policy, e: Error, attempts: nat): Option<Duration> {
    match RetryAfter(e)
    case Some(server) => if server > MAX_HONOURED_RETRY_AFTER then None else Some(server)
    case None => BackoffForAttempt(policy, attempts)
  }

  /** Attempt number `n`, having come to `o`, is followed by another. */
  predicate GoesOn(policy: Policy, o: Outcome, n: nat) {
    o.Failure? && Retryable(o.error) && n <= policy.maxRetries && Wait(policy, o.error, n).Some?
  }

  /** What the run ends in if attempt number `n` is its last. */
  function Verdict(policy: Policy, o: Outcome, n: nat): Outcome {
    if o.Success? then Success
    else if !Retryable(o.error) then o
    else if n <= policy.maxRetries && RetryAfter(o.error).None? then Failure(BackoffOverflow(n, policy.initialBackoff))
    else Failure(RetriesExhausted(n, o.error))
  }

  /** A complete run: the outcome, the attempts made and the sleeps between them. */
  ghost predicate IsRun(policy: Policy, trace: seq<Outcome>, result: Outcome, sends: nat, sleeps: seq<Duration>) {
    && 0 < sends <= |trace| && |sleeps| == sends - 1
    && (forall i :: 0 <= i < sends - 1 ==>
          GoesOn(policy, trace[i], i + 1) && Wait(policy, trace[i].error, i + 1) == Some(sleeps[i]))
    && !GoesOn(policy, trace[sends - 1], sends) && result == Verdict(policy, trace[sends - 1], sends)
  }

  /** The trace holds an outcome for every attempt the policy may make. */
  method Run(policy: Policy, trace: seq<Outcome>) returns (result: Outcome, sends: nat, sleeps: seq<Duration>)
    requires policy.maxRetries < U32_MAX && |trace| > policy.maxRetries
    ensures IsRun(policy, trace, result, sends, sleeps)
  {
    hide BackoffForAttempt;
    sends, sleeps := 0, [];
    var last: Error;
    while true
      invariant sends <= policy.maxRetries && |sleeps| == sends
      invariant forall i :: 0 <= i < sends ==>
        GoesOn(policy, trace[i], i + 1) && Wait(policy, trace[i].error, i + 1) == Some(sleeps[i])
      decreases policy.maxRetries - sends
    {
      var outcome := trace[sends];
      sends := sends + 1;
      if outcome.Success? {
        return Success, sends, sleeps;
      }
      var error := outcome.error;
      if !Retryable(error) || sends > policy.maxRetries + 1 {
        return Failure(error), sends, sleeps;
      }
      if sends > policy.maxRetries {
        last := error;
        break;
      }
      var delay: Duration;
      match RetryAfter(error) {
        case Some(server) =>
          if server > MAX_HONOURED_RETRY_AFTER {
            last := error;
            break;
          }
          delay := server;
        case None =>
          var backoff := BackoffForAttempt(policy, sends);
          if backoff.None? {
            return Failure(BackoffOverflow(sends, policy.initialBackoff)), sends, sleeps;
          }
          delay := backoff.value;
      }
      sleeps := sleeps + [delay];
    }
    result := Failure(RetriesExhausted(sends, last));
  }

  /** There is one run per trace. */
  lemma RunIsDetermined(policy: Policy, trace: seq<Outcome>, r1: Outcome, n1: nat, s1: seq<Duration>,
                        r2: Outcome, n2: nat, s2: seq<Duration>)
    requires IsRun(policy, trace, r1, n1, s1) && IsRun(policy, trace, r2, n2, s2)
    ensures r1 == r2 && n1 == n2 && s1 == s2
  {
    hide GoesOn, Wait, Verdict;
    assert n1 == n2;
    assert forall i :: 0 <= i < |s1| ==> Some(s1[i]) == Some(s2[i]);
  }

  /**
   * Never more than one send above the retries, never a sleep beyond a minute or the policy's cap, and a
   * run that gives up names the sends it made and a failure that was worth retrying.
   */
  lemma RunIsBounded(policy: Policy, trace: seq<Outcome>, result: Outcome, sends: nat, sleeps: seq<Duration>)
    requires IsRun(policy, trace, result, sends, sleeps)
    ensures sends <= policy.maxRetries + 1
    ensures forall i :: 0 <= i < |sleeps| ==>
              sleeps[i] <= Max(MAX_HONOURED_RETRY_AFTER, policy.maxBackoff)
    ensures result.Failure? && result != trace[sends - 1] && result.error.RetriesExhausted? ==>
              result.error.attempts == sends && Retryable(result.error.last)
    ensures sends > 1 ==> GoesOn(policy, trace[sends - 2], sends - 1)
  {
    forall i | 0 <= i < |sleeps|
      ensures sleeps[i] <= Max(MAX_HONOURED_RETRY_AFTER, policy.maxBackoff)
    {
      assert Wait(policy, trace[i].error, i + 1) == Some(sleeps[i]);
    }
    assert sends > 1 ==> GoesOn(policy, trace[sends - 2], sends - 1);
  }

  /**
   * The overflow error takes the place of a failure worth retrying exactly when more than 32 attempts were
   * made, retries are left and the server named no wait.
   */
  lemma OverflowHidesFailure(policy: Policy, trace: seq<Outcome>, result: Outcome, sends: nat, sleeps: seq<Duration>)
    requires IsRun(policy, trace, result, sends, sleeps)
    requires trace[sends - 1].Failure? && Retryable(trace[sends - 1].error)
    ensures result == Failure(BackoffOverflow(sends, policy.initialBackoff))
       <==> 32 < sends <= policy.maxRetries && RetryAfter(trace[sends - 1].error).None?
  {
    BackoffIsCappedDoubling(policy, sends);
    hide BackoffForAttempt, TwoTo;
  }

  /** With at most 32 retries every run ends in success, in its last failure as it came, or in that, exhausted. */
  lemma FewRetriesNeverOverflow(policy: Policy, trace: seq<Outcome>, result: Outcome, sends: nat,
                                sleeps: seq<Duration>)
    requires IsRun(policy, trace, result, sends, sleeps) && policy.maxRetries <= 32
    ensures result == trace[sends - 1]
         || (trace[sends - 1].Failure? && Retryable(trace[sends - 1].error)
             && result == Failure(RetriesExhausted(sends, trace[sends - 1].error)))
  {
    BackoffIsCappedDoubling(policy, sends);
    hide BackoffForAttempt, TwoTo;
  }

  /** Failures worth retrying for which the server names no wait. */
  predicate Transient(o: Outcome) { o.Failure? && Retryable(o.error) && RetryAfter(o.error).None? }

  /**
   * Against an endpoint that keeps failing this way, the policy exhausts its retries only if they are at
   * most 32; with more, the shift overflows behind attempt 33 and the run ends in that error instead.
   */
  lemma TransientRun(policy: Policy, trace: seq<Outcome>, result: Outcome, sends: nat, sleeps: seq<Duration>)
    requires IsRun(policy, trace, result, sends, sleeps) && forall i :: 0 <= i < |trace| ==> Transient(trace[i])
    ensures sends == (if policy.maxRetries <= 32 then policy.maxRetries + 1 else 33)
    ensures trace[sends - 1].Failure?
    ensures result == Failure(if policy.maxRetries <= 32 then RetriesExhausted(sends, trace[sends - 1].error)
                              else BackoffOverflow(33, policy.initialBackoff))
    ensures forall i :: 0 <= i < |sleeps| ==> sleeps[i] == Min(policy.initialBackoff * TwoTo(i), policy.maxBackoff)
  {
    forall i | 0 <= i < sends
      ensures GoesOn(policy, trace[i], i + 1) <==> i + 1 <= policy.maxRetries && i + 1 <= 32
    {
      TransientGoesOn(policy, trace[i], i + 1);
    }
    hide GoesOn, TwoTo, Retryable;
    if sends > 1 {
      assert GoesOn(policy, trace[sends - 2], sends - 1);
    }
    forall i | 0 <= i < |sleeps|
      ensures sleeps[i] == Min(policy.initialBackoff * TwoTo(i), policy.maxBackoff)
    {
      BackoffIsCappedDoubling(policy, i + 1);
      assert Wait(policy, trace[i].error, i + 1) == Some(sleeps[i]);
      assert GoesOn(policy, trace[i], i + 1);
    }
  }

  lemma TransientGoesOn(policy: Policy, o: Outcome, n: nat)
    requires Transient(o) && n > 0
    ensures GoesOn(policy, o, n) <==> n <= policy.maxRetries && n <= 32
  {
    BackoffIsCappedDoubling(policy, n);
    hide BackoffForAttempt, TwoTo;
  }
}
