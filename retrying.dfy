/**
  The retry combinator that the proxy's `@retry` decorators set up.

  All three decorators pass the same stop and wait arguments (at most five
  attempts, a fixed wait of 3000 ms between attempts) and `wrap_exception`,
  so every exception that leaves the wrapped call leaves as a `RetryError`
  carrying the last attempt. They differ only in the retry predicate
  (`retry_on_exception`), which is a parameter here.

  The environment is an oracle: `answers(i)` is what the wrapped function does
  on the i-th call ever made to it, so a call that starts at index `from`
  sees `answers(from)`, `answers(from + 1)`, ... on its successive attempts.
*/
module Retrying {

  /** `stop_max_attempt_number` of the decorators. */
  const StopMaxAttemptNumber: nat := 5

  /** `wait_fixed` of the decorators, in milliseconds. */
  const WaitFixedMs: nat := 3000

  /** One call of the wrapped function: it returned a value or raised. */
  datatype Attempt<T, E> = Returned(value: T) | Raised(error: E)

  /** What the decorated function gives its caller. */
  datatype Outcome<T, E> = Success(value: T) | RetryError(last: E)

  /** The outcome of one decorated call and how many attempts it made. */
  datatype Retried<T, E> = Retried(outcome: Outcome<T, E>, attempts: nat)

  /** The library's default retry predicate: retry on any exception. */
  function AlwaysReject<E>(e: E): bool
  {
    true
  }

  /** An attempt is rejected (and so retried, budget permitting) when it raised
      an exception that the retry predicate accepts. A returned value is never
      rejected: no result predicate is configured. */
  predicate Rejected<T, E>(retryOn: E -> bool, a: Attempt<T, E>)
  {
    a.Raised? && retryOn(a.error)
  }

  /** How the last attempt is surfaced: its value, or (wrap_exception) a
      RetryError wrapping its exception. */
  function Settle<T, E>(a: Attempt<T, E>): (o: Outcome<T, E>)
    ensures o.Success? <==> a.Returned?
  {
    match a
    case Returned(v) => Success(v)
    case Raised(e) => RetryError(e)
  }

  /** The declarative meaning of a decorated call started at `from`:
      between 1 and 5 attempts, every attempt but the last was rejected, the
      last one was accepted unless the budget ran out, and the caller sees the
      last attempt. */
  ghost predicate IsRetryOutcome<T, E>(answers: nat -> Attempt<T, E>, from: nat, retryOn: E -> bool, c: Retried<T, E>)
  {
    && 1 <= c.attempts <= StopMaxAttemptNumber
    && (forall i | from <= i < from + c.attempts - 1 :: Rejected(retryOn, answers(i)))
    && (c.attempts < StopMaxAttemptNumber ==> !Rejected(retryOn, answers(from + c.attempts - 1)))
    && c.outcome == Settle(answers(from + c.attempts - 1))
  }

  /** The decorated call, as a function of the oracle. */
  function Retry<T, E>(answers: nat -> Attempt<T, E>, from: nat, retryOn: E -> bool): (c: Retried<T, E>)
    ensures IsRetryOutcome(answers, from, retryOn, c)
  {
    RetryFromOutcome(answers, from, retryOn, 1);
    RetryFrom(answers, from, retryOn, 1)
  }

  /** The call from attempt number `n` on, the earlier attempts having been
      rejected. */
  function RetryFrom<T, E>(answers: nat -> Attempt<T, E>, from: nat, retryOn: E -> bool, n: nat): Retried<T, E>
    requires 1 <= n <= StopMaxAttemptNumber
    requires forall i | from <= i < from + n - 1 :: Rejected(retryOn, answers(i))
    decreases StopMaxAttemptNumber - n
  {
    var attempt := answers(from + n - 1);
    if Rejected(retryOn, attempt) && n < StopMaxAttemptNumber then
      RetryFrom(answers, from, retryOn, n + 1)
    else
      Retried(Settle(attempt), n)
  }

  /** Continuing from attempt `n` gives a call with the declarative meaning
      that makes at least `n` attempts. */
  lemma {:induction false} RetryFromOutcome<T, E>(answers: nat -> Attempt<T, E>, from: nat, retryOn: E -> bool, n: nat)
    requires 1 <= n <= StopMaxAttemptNumber
    requires forall i | from <= i < from + n - 1 :: Rejected(retryOn, answers(i))
    ensures IsRetryOutcome(answers, from, retryOn, RetryFrom(answers, from, retryOn, n))
    ensures n <= RetryFrom(answers, from, retryOn, n).attempts
    decreases StopMaxAttemptNumber - n
  {
    if Rejected(retryOn, answers(from + n - 1)) && n < StopMaxAttemptNumber {
      RetryFromOutcome(answers, from, retryOn, n + 1);
    }
  }

  /** The declarative meaning determines the call completely. */
  lemma RetryOutcomeUnique<T, E>(answers: nat -> Attempt<T, E>, from: nat, retryOn: E -> bool, c: Retried<T, E>, d: Retried<T, E>)
    requires IsRetryOutcome(answers, from, retryOn, c)
    requires IsRetryOutcome(answers, from, retryOn, d)
    ensures c == d
  {
    // name both last attempts, so that each call's quantifier applies to the other's
    var lastC, lastD := answers(from + c.attempts - 1), answers(from + d.attempts - 1);
  }

  /** The attempt loop of the library: call, stop when the attempt is not
      rejected, give up after the fifth attempt, otherwise wait and call
      again. */
  method Call<T, E>(answers: nat -> Attempt<T, E>, from: nat, retryOn: E -> bool) returns (c: Retried<T, E>)
    ensures c == Retry(answers, from, retryOn)
  {
    var attemptNumber: nat := 1;
    var attempt := answers(from);
    while Rejected(retryOn, attempt) && attemptNumber < StopMaxAttemptNumber
      invariant 1 <= attemptNumber <= StopMaxAttemptNumber
      invariant attempt == answers(from + attemptNumber - 1)
      invariant forall i | from <= i < from + attemptNumber - 1 :: Rejected(retryOn, answers(i))
      decreases StopMaxAttemptNumber - attemptNumber
    {
      // sleep WaitFixedMs, then the next attempt
      attemptNumber := attemptNumber + 1;
      attempt := answers(from + attemptNumber - 1);
    }
    c := Retried(Settle(attempt), attemptNumber);
    RetryOutcomeUnique(answers, from, retryOn, c, Retry(answers, from, retryOn));
  }

  /** The first attempt that is not rejected ends the call, and the caller
      gets what it returned or a RetryError wrapping what it raised. */
  lemma {:induction false} StopsAtFirstAccepted<T, E>(answers: nat -> Attempt<T, E>, from: nat, retryOn: E -> bool, k: nat)
    requires from <= k < from + StopMaxAttemptNumber
    requires forall i | from <= i < k :: Rejected(retryOn, answers(i))
    requires !Rejected(retryOn, answers(k))
    ensures Retry(answers, from, retryOn).attempts == k - from + 1
    ensures Retry(answers, from, retryOn).outcome == Settle(answers(k))
  {
    var c := Retry(answers, from, retryOn);
    var last := answers(from + c.attempts - 1);
  }

  /** Five rejected attempts exhaust the budget: the call gives up with a
      RetryError carrying the fifth attempt's exception. */
  lemma ExhaustsAfterFiveRejections<T, E>(answers: nat -> Attempt<T, E>, from: nat, retryOn: E -> bool)
    requires forall i | from <= i < from + StopMaxAttemptNumber :: Rejected(retryOn, answers(i))
    ensures Retry(answers, from, retryOn).attempts == StopMaxAttemptNumber
    ensures Retry(answers, from, retryOn).outcome == RetryError(answers(from + StopMaxAttemptNumber - 1).error)
  {
    var c := Retry(answers, from, retryOn);
    var last := answers(from + c.attempts - 1);
  }

  /** No attempt follows one that returned: every attempt before the last
      raised, and a call that succeeded succeeded on its last attempt. */
  lemma NoAttemptAfterSuccess<T, E>(answers: nat -> Attempt<T, E>, from: nat, retryOn: E -> bool)
    ensures forall i | from <= i < from + Retry(answers, from, retryOn).attempts - 1 :: answers(i).Raised?
    ensures Retry(answers, from, retryOn).outcome.Success? <==>
            answers(from + Retry(answers, from, retryOn).attempts - 1).Returned?
  {
    var c := Retry(answers, from, retryOn);
    forall i | from <= i < from + c.attempts - 1 ensures answers(i).Raised? {
      assert Rejected(retryOn, answers(i));
    }
  }
}
