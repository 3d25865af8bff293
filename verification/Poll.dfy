/** The timed polling loop: a step at once, then one after each interval, never sleeping past the timeout. */
module Poll {
  import opened Wrappers

  /** The longest duration, in nanoseconds; adding to a duration saturates here. */
  const MAX := 0xFFFF_FFFF_FFFF_FFFF * 1_000_000_000 + 999_999_999

  datatype Answer = Value(value: int) | Empty | Failed(code: int)

  datatype Polled = Ready(value: int) | TimedOut

  datatype PollError = StepFailed(code: int) | Cancelled

  /** What the world does: the answer and the duration of each step, whether a cancellation is requested when
      it is asked after that step, and by how much the sleep after it overshoots. */
  datatype Env = Env(step: nat -> Answer, cancelled: nat -> bool, took: nat -> nat, lag: nat -> nat)

  function SaturatingAdd(a: nat, b: nat): nat {
    if a + b > MAX then MAX else a + b
  }

  /** The time elapsed when step `n` has answered, if the loop gets there. */
  function Clock(env: Env, interval: nat, n: nat): nat {
    if n == 0 then env.took(0)
    else Clock(env, interval, n - 1) + interval + env.lag(n - 1) + env.took(n)
  }

  /** After step `n` the loop sleeps and goes on. */
  predicate GoesOn(env: Env, interval: nat, timeout: nat, n: nat) {
    && env.step(n).Empty?
    && !env.cancelled(n)
    && SaturatingAdd(Clock(env, interval, n), interval) <= timeout
  }

  lemma ClockSteps(env: Env, interval: nat, n: nat)
    ensures Clock(env, interval, 0) == env.took(0)
    ensures Clock(env, interval, n + 1) == Clock(env, interval, n) + interval + env.lag(n) + env.took(n + 1)
  {
  }

  lemma GoesOnIf(env: Env, interval: nat, timeout: nat, n: nat)
    ensures GoesOn(env, interval, timeout, n) <==>
            env.step(n).Empty? && !env.cancelled(n) && SaturatingAdd(Clock(env, interval, n), interval) <= timeout
    ensures GoesOn(env, interval, timeout, n) ==> timeout >= MAX || Clock(env, interval, n) + interval <= timeout
    ensures SaturatingAdd(Clock(env, interval, n), interval) > timeout <==> timeout < MAX && Clock(env, interval, n) + interval > timeout
  {
  }

  function Sum(f: nat -> nat, n: nat): nat {
    if n == 0 then 0 else Sum(f, n - 1) + f(n - 1)
  }

  /** When step `n` has answered, `n + 1` steps and `n` sleeps have passed, each sleep an interval and its lag. */
  lemma {:induction false} ClockSums(env: Env, interval: nat, n: nat)
    ensures Clock(env, interval, n) == Sum(env.took, n + 1) + n * interval + Sum(env.lag, n)
  {
    if n > 0 {
      ClockSums(env, interval, n - 1);
      assert n * interval == (n - 1) * interval + interval;
    }
  }

  /** The loop ends: after some step it does not go on. */
  ghost predicate Ends(env: Env, interval: nat, timeout: nat) {
    exists n: nat :: !GoesOn(env, interval, timeout, n)
  }

  /** The number of steps the loop takes: it goes on after all but the last. */
  ghost predicate Takes(env: Env, interval: nat, timeout: nat, steps: nat) {
    && steps >= 1 && !GoesOn(env, interval, timeout, steps - 1)
    && forall n: nat :: n < steps - 1 ==> GoesOn(env, interval, timeout, n)
  }

  /** The loop, for any durations and any steps with which it ends. It takes the first steps after which it goes
      on and one more, and each sleep it starts ends by the timeout, unless that is the longest duration. */
  method PollUntil(env: Env, interval: nat, timeout: nat)
    returns (r: Result<Polled, PollError>, steps: nat, elapsed: nat, sleepsUntil: seq<nat>)
    requires Ends(env, interval, timeout)
    ensures Takes(env, interval, timeout, steps)
    ensures forall v :: r == Ok(Ready(v)) <==> env.step(steps - 1) == Value(v)
    ensures forall code :: r == Err(StepFailed(code)) <==> env.step(steps - 1) == Failed(code)
    ensures r == Err(Cancelled) <==> env.step(steps - 1) == Empty && env.cancelled(steps - 1)
    ensures r == Ok(TimedOut) <==>
            env.step(steps - 1) == Empty && !env.cancelled(steps - 1) && timeout < MAX && elapsed + interval > timeout
    ensures forall n: nat :: n < steps - 1 ==>
              env.step(n) == Empty && !env.cancelled(n) && (timeout >= MAX || Clock(env, interval, n) + interval <= timeout)
    ensures elapsed == Clock(env, interval, steps - 1)
    ensures |sleepsUntil| == steps - 1
    ensures forall n :: 0 <= n < |sleepsUntil| ==> sleepsUntil[n] == Clock(env, interval, n) + interval
    ensures timeout < MAX ==> forall n :: 0 <= n < |sleepsUntil| ==> sleepsUntil[n] <= timeout
  {
    hide SaturatingAdd, Clock, GoesOn;
    ghost var end: nat :| !GoesOn(env, interval, timeout, end);
    var n: nat := 0;
    ClockSteps(env, interval, 0);
    elapsed := 0;
    sleepsUntil := [];
    while true
      invariant n <= end
      invariant elapsed + env.took(n) == Clock(env, interval, n)
      invariant forall k: nat :: k < n ==> GoesOn(env, interval, timeout, k)
      invariant forall k: nat :: k < n ==>
                  env.step(k) == Empty && !env.cancelled(k) && (timeout >= MAX || Clock(env, interval, k) + interval <= timeout)
      invariant |sleepsUntil| == n
      invariant forall k :: 0 <= k < n ==> sleepsUntil[k] == Clock(env, interval, k) + interval
      invariant timeout < MAX ==> forall k :: 0 <= k < n ==> sleepsUntil[k] <= timeout
      decreases end - n
    {
      ClockSteps(env, interval, n);
      GoesOnIf(env, interval, timeout, n);
      elapsed := elapsed + env.took(n);
      var answer := env.step(n);
      if answer.Value? {
        return Ok(Ready(answer.value)), n + 1, elapsed, sleepsUntil;
      }
      if answer.Failed? {
        return Err(StepFailed(answer.code)), n + 1, elapsed, sleepsUntil;
      }
      if env.cancelled(n) {
        return Err(Cancelled), n + 1, elapsed, sleepsUntil;
      }
      if SaturatingAdd(elapsed, interval) > timeout {
        return Ok(TimedOut), n + 1, elapsed, sleepsUntil;
      }
      sleepsUntil := sleepsUntil + [elapsed + interval];
      elapsed := elapsed + interval + env.lag(n);
      n := n + 1;
    }
  }

  // ---------- How many steps ----------

  lemma {:induction false} ClockPace(env: Env, interval: nat, n: nat)
    ensures Clock(env, interval, n) >= n * interval
  {
    if n > 0 {
      ClockPace(env, interval, n - 1);
      assert n * interval == (n - 1) * interval + interval;
    }
  }

  lemma WholeIntervals(interval: nat, timeout: nat, n: nat)
    requires interval > 0
    ensures (n + 1) * interval <= timeout <==> n < timeout / interval
  {
    var q := timeout / interval;
    assert timeout == q * interval + timeout % interval;
    if n < q {
      assert (n + 1) * interval <= q * interval;
    } else {
      assert (n + 1) * interval >= (q + 1) * interval == q * interval + interval;
    }
  }

  /** Whatever steps and sleeps take, the loop goes on at most `timeout / interval` times. */
  lemma AtMost(env: Env, interval: nat, timeout: nat, n: nat)
    requires interval > 0 && timeout < MAX
    ensures GoesOn(env, interval, timeout, n) ==> n < timeout / interval
  {
    ClockPace(env, interval, n);
    assert (n + 1) * interval == n * interval + interval;
    WholeIntervals(interval, timeout, n);
  }

  /** Steps that take no time, never answer and are never cancelled. */
  ghost predicate Instant(env: Env) {
    forall n: nat :: env.step(n) == Empty && !env.cancelled(n) && env.took(n) == 0 && env.lag(n) == 0
  }

  /** Then the count is exact: the loop goes on after steps `0` to `timeout / interval - 1`, at whole intervals. */
  lemma {:induction false} Exactly(env: Env, interval: nat, timeout: nat, n: nat)
    requires interval > 0 && timeout < MAX && Instant(env)
    ensures Clock(env, interval, n) == n * interval
    ensures GoesOn(env, interval, timeout, n) <==> n < timeout / interval
  {
    if n > 0 {
      Exactly(env, interval, timeout, n - 1);
      assert n * interval == (n - 1) * interval + interval;
    }
    assert (n + 1) * interval == n * interval + interval;
    WholeIntervals(interval, timeout, n);
  }

  /** At most one step more than whole intervals fit into the timeout; exactly that many when steps are
      instant and never answer, and then the loop ends at the last whole interval. */
  lemma StepCount(env: Env, interval: nat, timeout: nat, steps: nat)
    requires interval > 0 && timeout < MAX
    requires Takes(env, interval, timeout, steps)
    ensures 1 <= steps <= timeout / interval + 1
    ensures Instant(env) ==> steps == timeout / interval + 1
    ensures Instant(env) ==> Clock(env, interval, steps - 1) == timeout / interval * interval
  {
    hide GoesOn, Clock, SaturatingAdd;
    if steps > 1 {
      AtMost(env, interval, timeout, steps - 2);
    }
    if Instant(env) {
      Exactly(env, interval, timeout, steps - 1);
    }
  }

  /** The loop ends, whatever the steps do, exactly when the interval is positive and the timeout is below the
      longest duration: a sum that saturates never passes a timeout of the longest duration, and with an
      interval of zero a clock that stands still never passes any. */
  lemma EndsIff(interval: nat, timeout: nat)
    requires timeout <= MAX
    ensures (forall env: Env :: Ends(env, interval, timeout)) <==> interval > 0 && timeout < MAX
  {
    if interval > 0 && timeout < MAX {
      forall env: Env ensures Ends(env, interval, timeout) {
        AtMost(env, interval, timeout, timeout / interval);
      }
    } else {
      var env := Env(_ => Empty, _ => false, _ => 0, _ => 0);
      forall n: nat ensures GoesOn(env, interval, timeout, n) {
        ClockAtRest(env, interval, n);
      }
      assert !Ends(env, interval, timeout);
    }
  }

  lemma {:induction false} ClockAtRest(env: Env, interval: nat, n: nat)
    requires Instant(env)
    ensures interval == 0 ==> Clock(env, interval, n) == 0
  {
    if n > 0 {
      ClockAtRest(env, interval, n - 1);
    }
  }

  /** Steps that never answer and are never cancelled, however long they take. */
  ghost predicate Silent(env: Env) {
    forall n: nat :: env.step(n) == Empty && !env.cancelled(n)
  }

  /** With an interval of zero the loop ends in every world whose clock passes the timeout, and among silent
      steps in no other. */
  lemma ZeroIntervalEnds(env: Env, timeout: nat)
    requires timeout < MAX
    ensures (exists n: nat :: Clock(env, 0, n) > timeout) ==> Ends(env, 0, timeout)
    ensures Silent(env) && Ends(env, 0, timeout) ==> exists n: nat :: Clock(env, 0, n) > timeout
  {
    hide Clock;
    if exists n: nat :: Clock(env, 0, n) > timeout {
      var n: nat :| Clock(env, 0, n) > timeout;
      assert !GoesOn(env, 0, timeout, n);
    }
    if Silent(env) && Ends(env, 0, timeout) {
      var n: nat :| !GoesOn(env, 0, timeout, n);
      assert Clock(env, 0, n) > timeout;
    }
  }

  ghost predicate MovesOn(env: Env, interval: nat, n: nat) {
    exists m: nat :: m > n && Clock(env, interval, m) > Clock(env, interval, n)
  }

  /** The clock never stands still for good. */
  ghost predicate Advances(env: Env, interval: nat) {
    forall n: nat :: MovesOn(env, interval, n)
  }

  /** Where the clock advances, an interval of zero ends too: for any interval the loop ends in every such world
      exactly when the timeout is below the longest duration. */
  lemma EndsWhenClockAdvancesIff(interval: nat, timeout: nat)
    requires timeout <= MAX
    ensures (forall env: Env :: Advances(env, interval) ==> Ends(env, interval, timeout)) <==> timeout < MAX
  {
    hide Clock;
    if timeout < MAX {
      forall env: Env | Advances(env, interval) ensures Ends(env, interval, timeout) {
        var n := Passes(env, interval, timeout);
        assert !GoesOn(env, interval, timeout, n);
      }
    } else {
      var env := Env(_ => Empty, _ => false, _ => 1, _ => 0);
      Ticks(env, interval);
      assert forall n: nat :: GoesOn(env, interval, timeout, n);
    }
  }

  /** A clock that every step moves advances. */
  lemma Ticks(env: Env, interval: nat)
    requires forall n: nat :: env.took(n) > 0
    ensures Advances(env, interval)
  {
    hide Clock;
    forall n: nat ensures MovesOn(env, interval, n) {
      ClockSteps(env, interval, n);
      assert n + 1 > n && Clock(env, interval, n + 1) > Clock(env, interval, n);
    }
  }

  /** An advancing clock passes every time. */
  lemma {:induction false} Passes(env: Env, interval: nat, time: nat) returns (n: nat)
    requires Advances(env, interval)
    ensures Clock(env, interval, n) > time
  {
    hide Clock;
    var before: nat := 0;
    if time > 0 {
      before := Passes(env, interval, time - 1);
    }
    assert MovesOn(env, interval, before);
    n :| n > before && Clock(env, interval, n) > Clock(env, interval, before);
  }
}
