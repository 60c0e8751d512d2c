/**
 The rate-limit policy the service hands to the throttling plugin. The callbacks decide
 whether a throttled request is re-sent: `onRateLimit` returns `true` only while no retry has
 happened yet and otherwise returns nothing; `onAbuseLimit` never returns anything. The
 plugin's resend loop is modelled as re-sending with a retry count one higher whenever the
 callback's answer is truthy.
 */
module Throttling {
  import opened Wrappers

  /** The two throttling signals: primary quota exhaustion and secondary (abuse) detection. */
  datatype Signal = RateLimit | AbuseLimit

  /** `onRateLimit`'s return value: `true`, or `undefined` once a retry has already been made. */
  function OnRateLimit(retryCount: nat): Option<bool>
  {
    if retryCount == 0 then Some(true) else None
  }

  /** `onAbuseLimit`'s return value: it only logs, so it returns `undefined`. */
  function OnAbuseLimit(): Option<bool>
  {
    None
  }

  /** JavaScript truthiness of a callback's return value. */
  predicate Truthy(v: Option<bool>)
  {
    v == Some(true)
  }

  /** The retry decision: only a primary rate limit on the first attempt is retried. */
  function Retries(signal: Signal, retryCount: nat): (retry: bool)
    ensures retry <==> signal == RateLimit && retryCount == 0
    ensures signal == AbuseLimit ==> !retry
  {
    match signal
    case RateLimit => Truthy(OnRateLimit(retryCount))
    case AbuseLimit => Truthy(OnAbuseLimit())
  }

  /** What one attempt of the upstream call produced: an answer, or a throttling signal. */
  datatype Attempt<R> = Answered(value: R) | Limited(signal: Signal)

  /** How the throttled call ends: with an answer, or with the signal surfaced as a failure. */
  datatype Settlement<R> = Done(value: R) | Surfaced(signal: Signal)

  /** A settled throttled call and the number of attempts it took. */
  datatype Run<R> = Run(settlement: Settlement<R>, attempts: nat)

  /** The attempt that a settlement reports. */
  function Reported<R>(s: Settlement<R>): Attempt<R>
  {
    match s
    case Done(v) => Answered(v)
    case Surfaced(signal) => Limited(signal)
  }

  /**
   A request under the throttling plugin, with `send(k)` the outcome of the attempt made at
   retry count `k`. Starting from the first attempt at most two attempts are made; the last
   one is what the call reports, and a retry happens only after a primary rate limit.
   */
  function Throttled<R>(send: nat -> Attempt<R>, retryCount: nat): (r: Run<R>)
    ensures 1 <= r.attempts
    ensures retryCount == 0 ==> r.attempts <= 2
    ensures retryCount > 0 ==> r.attempts == 1
    ensures send(retryCount + r.attempts - 1) == Reported(r.settlement)
    ensures r.attempts == 2 <==> retryCount == 0 && send(retryCount) == Limited(RateLimit)
    decreases if retryCount == 0 then 1 else 0
  {
    match send(retryCount)
    case Answered(v) => Run(Done(v), 1)
    case Limited(signal) =>
      if Retries(signal, retryCount) then
        var next := Throttled(send, retryCount + 1);
        Run(next.settlement, next.attempts + 1)
      else Run(Surfaced(signal), 1)
  }

  /** An abuse signal ends the call on its first occurrence, with no retry. */
  lemma AbuseNeverRetried<R>(send: nat -> Attempt<R>, retryCount: nat)
    requires send(retryCount) == Limited(AbuseLimit)
    ensures Throttled(send, retryCount) == Run(Surfaced(AbuseLimit), 1)
  {
  }

  /** A first primary rate limit is retried once; a second one is surfaced without a further retry. */
  lemma SecondRateLimitSurfaces<R>(send: nat -> Attempt<R>)
    requires send(0) == Limited(RateLimit) && send(1) == Limited(RateLimit)
    ensures Throttled(send, 0) == Run(Surfaced(RateLimit), 2)
  {
  }

  /** An abuse signal on the retry also ends the call, after the second attempt. */
  lemma AbuseOnRetrySurfaces<R>(send: nat -> Attempt<R>)
    requires send(0) == Limited(RateLimit) && send(1) == Limited(AbuseLimit)
    ensures Throttled(send, 0) == Run(Surfaced(AbuseLimit), 2)
  {
  }

  /** A first primary rate limit followed by an answer resolves with that answer after one retry. */
  lemma RetryAfterRateLimit<R>(send: nat -> Attempt<R>, v: R)
    requires send(0) == Limited(RateLimit) && send(1) == Answered(v)
    ensures Throttled(send, 0) == Run(Done(v), 2)
  {
  }
}
