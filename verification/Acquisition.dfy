/** The client's bounded retry loop. Everything the loop observes is an arbitrary environment. */
module Acquisition {
  import opened Leases
  import opened Policies
  import B = Backends
  import E = Exclusion
  import H = Handles

  datatype Context = Nil | Ended | Live

  /** The n-th answer of each dependency: injected clock and real time readings, backend replies,
      jitter, sleeps that fail, and whether the wait's own deadline has been reached. The clock is
      first read before the loop, then twice per attempt: reading 2n + 1, like wall reading n, is taken
      before call n, and reading 2n + 2 after its reply. */
  datatype Env = Env(
    owner: Result<Text>,
    clock: nat -> int,
    wall: nat -> int,
    reply: nat -> Result<Record>,
    jitter: nat -> int,
    sleepFails: nat -> bool,
    waitOver: nat -> bool)

  datatype Ask = Ask(env: Env, policy: Policy, key: Text, owner: Text)
  {
    function Delay(n: nat): int {
      policy.retry + BoundedJitter(env.jitter(n), policy.jitter)
    }

    /** How attempt n ends the acquisition, or None if the loop goes on to attempt n + 1. */
    function Ending(n: nat): Option<Result<H.Local>> {
      var reply := env.reply(n);
      if reply.Ok? then
        if ValidAcquisition(key, owner, reply.value) then
          Some(Ok(H.Open(policy, reply.value, env.clock(2 * n + 1), env.wall(n))))
        else Some(Err({AmbiguousOutcome}))
      else if env.waitOver(2 * n) then Some(Err({Timeout}))
      else if Contended !in reply.error then Some(Err(reply.error))
      else if policy.wait == 0 || n + 1 == policy.maxAttempts
              || env.clock(0) + policy.wait <= env.clock(2 * n + 2) + Delay(n) then
        Some(Err({Timeout}))
      else if env.sleepFails(n) then
        if env.waitOver(2 * n + 1) then Some(Err({Timeout})) else Some(Err({Canceled}))
      else None
    }

    /** No further attempt is allowed after attempt n: one is enough, they are used up, or the next
        delay would end at or after the end of the wait. */
    predicate SpentAt(n: nat) {
      policy.wait == 0 || n + 1 == policy.maxAttempts
      || env.clock(0) + policy.wait <= env.clock(2 * n + 2) + Delay(n)
    }

    /** Attempt n was contended, and its caller may try again. */
    predicate RetriesAfter(n: nat) {
      && env.reply(n).Err? && Contended in env.reply(n).error
      && !env.waitOver(2 * n) && !SpentAt(n)
    }

    /** What an acquisition whose last attempt is n returns, by what its dependencies answered. */
    predicate Returns(n: nat, result: Result<H.Local>) {
      var reply, budget := env.reply(n), policy.ttl - policy.safetyMargin;
      && (result.Ok? <==> reply.Ok? && ValidAcquisition(key, owner, reply.value))
      && (result.Ok? ==>
            && result.value.record == reply.value
            && result.value.deadline == env.clock(2 * n + 1) + budget
            && result.value.wallDeadline == env.wall(n) + budget
            && result.value.state == H.Active && !result.value.busy && !result.value.managed)
      && (reply.Ok? && !ValidAcquisition(key, owner, reply.value) ==> result == Err({AmbiguousOutcome}))
      && (reply.Err? && !env.waitOver(2 * n) && Contended !in reply.error ==> result == Err(reply.error))
      && (RetriesAfter(n) && env.sleepFails(n) && !env.waitOver(2 * n + 1) ==> result == Err({Canceled}))
      && (reply.Err? && (|| env.waitOver(2 * n)
                         || (Contended in reply.error && SpentAt(n))
                         || (RetriesAfter(n) && env.sleepFails(n) && env.waitOver(2 * n + 1))) ==>
            result == Err({Timeout}))
      && (RetriesAfter(n) ==> env.sleepFails(n))
    }

    /** The loop runs attempts 0 to n and ends with the last. */
    ghost predicate StopsAt(n: nat) {
      Ending(n).Some? && forall m :: 0 <= m < n ==> Ending(m).None?
    }

    predicate Slept(n: nat) {
      env.clock(2 * n + 2) + Delay(n) <= env.clock(2 * n + 3)
    }

    /** The injected clock never goes back, and a completed sleep moves it on by its delay. */
    ghost predicate Steady() {
      && (forall i: nat, j: nat :: i <= j ==> env.clock(i) <= env.clock(j))
      && (forall n: nat :: Slept(n))
    }

    function TotalDelay(n: nat): int {
      if n == 0 then 0 else TotalDelay(n - 1) + Delay(n - 1)
    }
  }

  lemma {:induction false} DelaysPass(ask: Ask, n: nat)
    requires ask.Steady() && Sane(ask.policy)
    ensures ask.env.clock(0) + ask.TotalDelay(n) <= ask.env.clock(2 * n + 1)
    ensures n * ask.policy.retry <= ask.TotalDelay(n)
  {
    if n > 0 {
      DelaysPass(ask, n - 1);
      assert ask.Slept(n - 1);
      assert ask.env.clock(2 * n - 1) <= ask.env.clock(2 * n);
      assert n * ask.policy.retry == (n - 1) * ask.policy.retry + ask.policy.retry;
    } else {
      assert ask.env.clock(0) <= ask.env.clock(1);
    }
  }

  /** The delay before the next attempt is the retry interval and the jitter answered, clamped to the
      policy's range. */
  lemma DelayExact(ask: Ask, n: nat)
    requires Sane(ask.policy)
    ensures var jitter := ask.env.jitter(n);
            ask.Delay(n) == ask.policy.retry
                            + (if jitter < 0 then 0 else if ask.policy.jitter < jitter then ask.policy.jitter
                               else jitter)
  {
  }

  lemma GoesOn(ask: Ask, m: nat)
    requires ask.Ending(m).None?
    ensures ask.env.reply(m).Err? && Contended in ask.env.reply(m).error
    ensures ask.policy.wait != 0 && m + 1 != ask.policy.maxAttempts
    ensures ask.env.clock(2 * m + 2) + ask.Delay(m) < ask.env.clock(0) + ask.policy.wait
  {
  }

  /** The loop stops within the attempt bound, at the first attempt without a wait, and has retried
      only contention. */
  lemma Bounded(ask: Ask, n: nat)
    requires Sane(ask.policy) && ask.StopsAt(n)
    ensures n < ask.policy.maxAttempts && (ask.policy.wait == 0 ==> n == 0)
    ensures forall m :: 0 <= m < n ==> ask.env.reply(m).Err? && Contended in ask.env.reply(m).error
  {
    if n > 0 {
      GoesOn(ask, 0);
    }
    if n >= ask.policy.maxAttempts {
      GoesOn(ask, ask.policy.maxAttempts - 1);
    }
    forall m | 0 <= m < n
      ensures ask.env.reply(m).Err? && Contended in ask.env.reply(m).error
    {
      GoesOn(ask, m);
    }
  }

  /** With a steady clock the delays slept, and the retry intervals passed, stay below the wait. */
  lemma WaitBounds(ask: Ask, n: nat)
    requires Sane(ask.policy) && ask.StopsAt(n) && ask.Steady() && 0 < n
    ensures ask.TotalDelay(n) < ask.policy.wait && n * ask.policy.retry < ask.policy.wait
  {
    DelaysPass(ask, n - 1);
    DelaysPass(ask, n);
    GoesOn(ask, n - 1);
    assert ask.env.clock(2 * n - 1) <= ask.env.clock(2 * n);
  }

  /** The loop goes on after an attempt if and only if it may try again and its sleep succeeds. */
  lemma GoesOnExactly(ask: Ask, n: nat)
    ensures ask.Ending(n).None? <==> ask.RetriesAfter(n) && !ask.env.sleepFails(n)
  {
  }

  lemma EndsExactly(ask: Ask, n: nat)
    requires ask.Ending(n).Some?
    ensures ask.Returns(n, ask.Ending(n).value)
  {
  }

  /** A handle closes no later than the record it was opened on expires at the store, if the margin
      covers the store's granularity and the store granted no earlier than the reading before the call,
      on a clock that keeps time with it. */
  lemma ClosesInTime(ask: Ask, n: nat, result: Result<H.Local>, b: B.Backend, now: int, canceled: bool)
    requires ask.Returns(n, result) && result.Ok? && b.Wf() && E.Granular(b.Kind(), ask.policy)
    requires B.Exec(b, now, canceled, TryAcquire(ask.key, ask.owner, ask.policy.ttl)).1
             == Granted(ask.env.reply(n).value)
    ensures ask.env.wall(n) <= now ==> result.value.wallDeadline <= result.value.record.expiresAt
    ensures ask.env.clock(2 * n + 1) <= now ==> result.value.deadline <= result.value.record.expiresAt
  {
    B.ExecRefines(b, now, canceled, TryAcquire(ask.key, ask.owner, ask.policy.ttl));
  }

  class Client {
    var waiters: nat
    const maxWaiters: nat

    constructor (maxWaiters: nat)
      ensures waiters == 0 && this.maxWaiters == maxWaiters
    {
      waiters := 0;
      this.maxWaiters := maxWaiters;
    }

    /** Runs the loop; `attempts` counts backend calls and `owners` lists the owner each one used. */
    method Acquire(context: Context, key: Text, policy: Policy, env: Env)
      returns (result: Result<H.Local>, attempts: nat, owners: seq<Text>)
      requires Sane(policy) && waiters <= maxWaiters
      modifies this
      ensures waiters == old(waiters)
      ensures |owners| == attempts && forall i :: 0 <= i < attempts ==> env.owner.Ok? && owners[i] == env.owner.value
      ensures attempts == 0 <==>
                || context != Live || old(waiters) == maxWaiters
                || env.owner.Err? || env.owner.value == [] || |env.owner.value| > MAX_OWNER_BYTES
      ensures attempts == 0 ==>
                result == Err(if context == Nil then {InvalidState}
                              else if context == Ended then {Canceled}
                              else {BackendUnavailable})
      ensures 0 < attempts ==>
                var ask := Ask(env, policy, key, env.owner.value);
                && ask.StopsAt(attempts - 1) && ask.Returns(attempts - 1, result)
                && forall m :: 0 <= m < attempts - 1 ==> ask.RetriesAfter(m) && !env.sleepFails(m)
    {
      attempts, owners := 0, [];
      if context == Nil {
        return Err({InvalidState}), 0, [];
      }
      if context == Ended {
        return Err({Canceled}), 0, [];
      }
      if waiters == maxWaiters {
        return Err({BackendUnavailable}), 0, [];
      }
      waiters := waiters + 1;
      if env.owner.Err? || env.owner.value == [] || |env.owner.value| > MAX_OWNER_BYTES {
        waiters := waiters - 1;
        return Err({BackendUnavailable}), 0, [];
      }
      var owner := env.owner.value;
      ghost var ask := Ask(env, policy, key, owner);
      var deadline := env.clock(0) + policy.wait;
      result := Err({});
      while true
        invariant attempts == |owners| && attempts < policy.maxAttempts && waiters == old(waiters) + 1
        invariant forall i :: 0 <= i < attempts ==> owners[i] == owner
        invariant forall m :: 0 <= m < attempts ==> ask.Ending(m).None?
        decreases policy.maxAttempts - attempts
      {
        var n := attempts;
        var attemptStarted, wallStarted := env.clock(2 * n + 1), env.wall(n);
        var reply := env.reply(n);
        attempts, owners := attempts + 1, owners + [owner];
        if reply.Ok? {
          result := if ValidAcquisition(key, owner, reply.value)
                    then Ok(H.Open(policy, reply.value, attemptStarted, wallStarted)) else Err({AmbiguousOutcome});
          break;
        }
        if env.waitOver(2 * n) {
          result := Err({Timeout});
          break;
        }
        if Contended !in reply.error {
          result := Err(reply.error);
          break;
        }
        var delay := policy.retry + BoundedJitter(env.jitter(n), policy.jitter);
        if policy.wait == 0 || attempts == policy.maxAttempts || deadline <= env.clock(2 * n + 2) + delay {
          result := Err({Timeout});
          break;
        }
        if env.sleepFails(n) {
          result := if env.waitOver(2 * n + 1) then Err({Timeout}) else Err({Canceled});
          break;
        }
      }
      waiters := waiters - 1;
      EndsExactly(ask, attempts - 1);
      forall m | 0 <= m < attempts - 1
        ensures ask.RetriesAfter(m) && !env.sleepFails(m)
      {
        GoesOnExactly(ask, m);
      }
    }
  }
}
