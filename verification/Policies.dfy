/** Acquisition and renewal policies, validated in wrapping 64-bit arithmetic. */
module Policies {
  import opened Leases

  const SECOND: int := 1_000_000_000
  const MAX_TTL: int := 86_400 * SECOND
  const MAX_WAIT: int := 3_600 * SECOND
  const MAX_ATTEMPTS: int := 10_000
  const MAX_OPERATION_TIMEOUT: int := 60 * SECOND
  const FAIL_CLOSED: int := 1

  datatype Options = Options(
    ttl: int,
    wait: int,
    retry: int,
    jitter: int,
    renewEvery: int,
    safetyMargin: int,
    maxAttempts: int,
    operationTimeout: int,
    failureBehavior: int)

  datatype Policy = Policy(
    ttl: int,
    wait: int,
    retry: int,
    jitter: int,
    renewEvery: int,
    safetyMargin: int,
    maxAttempts: int,
    operationTimeout: int)

  predicate IsInt64(x: int) {
    -MAX_INT64 - 1 <= x <= MAX_INT64
  }

  /** Go's arithmetic on durations. */
  function Wrap64(x: int): int {
    (x + MAX_INT64 + 1) % (MAX_UINT64 + 1) - MAX_INT64 - 1
  }

  function Min(a: int, b: int): int {
    if a < b then a else b
  }

  function Max(a: int, b: int): int {
    if a < b then b else a
  }

  /** Every option fits the Go field it models. */
  predicate Machine(o: Options) {
    && IsInt64(o.ttl) && IsInt64(o.wait) && IsInt64(o.retry) && IsInt64(o.jitter)
    && IsInt64(o.renewEvery) && IsInt64(o.safetyMargin) && IsInt64(o.operationTimeout)
    && 0 <= o.maxAttempts < 0x1_0000_0000 && 0 <= o.failureBehavior < 256
  }

  function NewPolicy(options: Options): Result<Policy> {
    var o :=
      if options.operationTimeout == 0 then options.(operationTimeout := Min(options.ttl, 30 * SECOND))
      else options;
    var behavior := if o.failureBehavior == 0 then FAIL_CLOSED else o.failureBehavior;
    var remaining := Wrap64(o.ttl - o.safetyMargin);
    var invalidRenewal := o.renewEvery < 0 || (o.renewEvery != 0 && remaining <= o.renewEvery);
    if || o.ttl < 1 || MAX_TTL < o.ttl
       || o.wait < 0 || MAX_WAIT < o.wait || o.retry < 0 || MAX_WAIT < o.retry
       || o.jitter < 0 || o.safetyMargin < 0
       || remaining < 1 || o.retry < o.jitter
       || invalidRenewal
       || o.maxAttempts == 0 || MAX_ATTEMPTS < o.maxAttempts
       || o.operationTimeout < 1 || MAX_OPERATION_TIMEOUT < o.operationTimeout
       || behavior != FAIL_CLOSED
       || (0 < o.wait && o.retry == 0)
    then Err({InvalidState})
    else Ok(Policy(o.ttl, o.wait, o.retry, o.jitter, o.renewEvery, o.safetyMargin, o.maxAttempts, o.operationTimeout))
  }

  /** The documented constraints, over the integers. */
  predicate Acceptable(o: Options) {
    && 0 < o.ttl <= MAX_TTL
    && 0 <= o.safetyMargin < o.ttl
    && (o.renewEvery == 0 || 0 < o.renewEvery < o.ttl - o.safetyMargin)
    && 0 <= o.wait <= MAX_WAIT
    && 0 <= o.jitter <= o.retry <= MAX_WAIT
    && (0 < o.wait ==> 0 < o.retry)
    && 1 <= o.maxAttempts <= MAX_ATTEMPTS
    && 0 <= o.operationTimeout <= MAX_OPERATION_TIMEOUT
    && o.failureBehavior in {0, FAIL_CLOSED}
  }

  /** What every policy handed to a client satisfies. */
  predicate Sane(p: Policy) {
    && 0 < p.ttl <= MAX_TTL
    && 0 <= p.safetyMargin < p.ttl
    && (p.renewEvery == 0 || 0 < p.renewEvery < p.ttl - p.safetyMargin)
    && 0 <= p.wait <= MAX_WAIT
    && 0 <= p.jitter <= p.retry <= MAX_WAIT
    && (0 < p.wait ==> 0 < p.retry)
    && 1 <= p.maxAttempts <= MAX_ATTEMPTS
    && 0 < p.operationTimeout <= MAX_OPERATION_TIMEOUT
  }

  lemma WrapIdentity(x: int)
    requires IsInt64(x)
    ensures Wrap64(x) == x
  {
  }

  /** Wrapping stays in range and changes a number by a multiple of 2^64 only. */
  lemma WrapExact(x: int) returns (turns: int)
    ensures IsInt64(Wrap64(x)) && Wrap64(x) == x - turns * (MAX_UINT64 + 1)
  {
    turns := (x + MAX_INT64 + 1) / (MAX_UINT64 + 1);
  }

  /** In wrapping arithmetic the constructor accepts exactly the documented options, copies them,
      and defaults only the timeout. */
  lemma AcceptsExactly(o: Options)
    requires Machine(o)
    ensures NewPolicy(o).Ok? <==> Acceptable(o)
    ensures Acceptable(o) ==>
              && Sane(NewPolicy(o).value)
              && NewPolicy(o).value ==
                 Policy(o.ttl, o.wait, o.retry, o.jitter, o.renewEvery, o.safetyMargin, o.maxAttempts,
                        if o.operationTimeout == 0 then Min(o.ttl, 30 * SECOND) else o.operationTimeout)
  {
    if 0 < o.ttl <= MAX_TTL && 0 <= o.safetyMargin {
      WrapIdentity(o.ttl - o.safetyMargin);
    }
  }

  /** The jitter source's answer, whatever it is, clamped to the policy's range. */
  function BoundedJitter(answer: int, maximum: int): int {
    Min(Max(answer, 0), maximum)
  }

  /** For every accepted policy the local budget is positive and longer than the managed interval,
      and a retry delay stays within one to two retry intervals without overflow. */
  lemma ArithmeticIsSafe(p: Policy, answer: int)
    requires Sane(p)
    ensures Wrap64(p.ttl - p.safetyMargin) == p.ttl - p.safetyMargin > p.renewEvery >= 0
    ensures var delay := Wrap64(p.retry + BoundedJitter(answer, p.jitter)); p.retry <= delay <= 2 * p.retry
    ensures 0 < p.wait ==> 0 < Wrap64(p.retry + BoundedJitter(answer, p.jitter))
    ensures var jitter := BoundedJitter(answer, p.jitter);
            jitter == if answer < 0 then 0 else if p.jitter < answer then p.jitter else answer
  {
    WrapIdentity(p.ttl - p.safetyMargin);
    WrapIdentity(p.retry + BoundedJitter(answer, p.jitter));
  }
}
