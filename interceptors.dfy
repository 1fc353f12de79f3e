/**
 * The unary client interceptor of interceptors.go, as it is written: a loop
 * over `attempt` from 0 while `attempt < maxRetries`. Each iteration first
 * gives up with the context's error when the context is done, then invokes
 * the call on the handle the call was issued on (`cc`). A nil error ends the
 * call. A DeadlineExceeded or Unavailable error waits `backoffDuration(attempt)`,
 * giving up with the context's error if the context finishes first, then calls
 * `TryReconnect` and goes on. Any other error also goes on to the next
 * attempt: the `break` there leaves only the `select`. After the loop the
 * last invocation's error is returned.
 *
 * The invoker, the context and the clock are scripted per attempt by an
 * `Env`, and the call records a trace of what it did.
 */
module Interceptors {
  import opened Wrappers
  import opened Clock
  import opened Grpc
  import opened Connections
  import opened ConnectionManagers

  /** What one call of the interceptor did, in order. */
  datatype Event =
    | Invoked(attempt: nat, on: Option<Handle>)
    | Waited(attempt: nat, delay: nat)
    | Reconnected(attempt: nat, handle: Option<Handle>, err: Option<Error>)
    | Cancelled(attempt: nat)

  /**
   * The call's surroundings, attempt by attempt: what the invoker returns,
   * whether `ctx.Done()` is ready at the top of the loop, whether it wins the
   * `select` against the backoff timer, what `grpc.NewClient` yields inside
   * `TryReconnect`, the time `TryReconnect` reads, and the context's error.
   */
  datatype Env = Env(
    invoke: nat -> Option<Error>,
    doneAtTop: nat -> bool,
    doneInWait: nat -> bool,
    dial: nat -> DialResult,
    clock: nat -> Time,
    ctxErr: ContextError)

  /** The returned error, the trace, and the manager's state afterwards. */
  datatype Run = Run(err: Option<Error>, trace: seq<Event>, state: ManagerState)

  /** The invocation of `attempt` failed and the loop goes on to the next attempt. */
  predicate Continues(env: Env, attempt: nat) {
    && !env.doneAtTop(attempt)
    && env.invoke(attempt).Some?
    && (IsTransient(env.invoke(attempt).value) ==> !env.doneInWait(attempt))
  }

  /** The reply of the `TryReconnect` that follows a transient failure at `attempt`. */
  function ReconnectReply(age: Duration, env: Env, attempt: nat, ms: ManagerState): Reply {
    TryReconnectStep(age, ms, env.dial(attempt), env.clock(attempt))
  }

  /** The events of an attempt that fails and goes on. */
  function FailedAttempt(age: Duration, cc: Option<Handle>, env: Env, attempt: nat, ms: ManagerState): seq<Event>
    requires Continues(env, attempt)
  {
    if IsTransient(env.invoke(attempt).value) then
      var rep := ReconnectReply(age, env, attempt, ms);
      [Invoked(attempt, cc), Waited(attempt, BackoffDuration(attempt)), Reconnected(attempt, rep.handle, rep.err)]
    else
      [Invoked(attempt, cc)]
  }

  /** The manager's state after an attempt that fails and goes on. */
  function StateAfter(age: Duration, env: Env, attempt: nat, ms: ManagerState): ManagerState
    requires Continues(env, attempt)
  {
    if IsTransient(env.invoke(attempt).value) then ReconnectReply(age, env, attempt, ms).state else ms
  }

  /** An attempt that ends the call: cancelled at the top, successful, or cancelled during the wait. */
  function FinalAttempt(cc: Option<Handle>, env: Env, attempt: nat, ms: ManagerState): Run {
    if env.doneAtTop(attempt) then Run(Some(ContextErr(env.ctxErr)), [Cancelled(attempt)], ms)
    else if env.invoke(attempt).None? then Run(None, [Invoked(attempt, cc)], ms)
    else Run(Some(ContextErr(env.ctxErr)), [Invoked(attempt, cc), Cancelled(attempt)], ms)
  }

  /**
   * The loop from `attempt` on, with `err` the value of the error variable
   * and `ms` the manager's state at that point.
   */
  function Retry(age: Duration, maxRetries: int, cc: Option<Handle>, env: Env,
                 attempt: nat, err: Option<Error>, ms: ManagerState): Run
    decreases maxRetries - attempt
  {
    if attempt >= maxRetries then Run(err, [], ms)
    else if Continues(env, attempt) then
      Resumed(FailedAttempt(age, cc, env, attempt, ms),
              Retry(age, maxRetries, cc, env, attempt + 1, env.invoke(attempt), StateAfter(age, env, attempt, ms)))
    else FinalAttempt(cc, env, attempt, ms)
  }

  /** A run preceded by the events that led to it. */
  function Resumed(prefix: seq<Event>, r: Run): Run {
    r.(trace := prefix + r.trace)
  }

  /** One whole intercepted call on a manager in state `ms`. */
  function Intercept(age: Duration, maxRetries: int, cc: Option<Handle>, env: Env, ms: ManagerState): Run {
    Retry(age, maxRetries, cc, env, 0, None, ms)
  }

  /** The number of invocations in a trace. */
  function InvokeCount(t: seq<Event>): nat {
    if t == [] then 0 else (if t[0].Invoked? then 1 else 0) + InvokeCount(t[1..])
  }

  /** The trace ends with an invocation that succeeded. */
  predicate Succeeded(t: seq<Event>, env: Env) {
    |t| > 0 && t[|t| - 1].Invoked? && env.invoke(t[|t| - 1].attempt).None?
  }

  lemma {:induction false} InvokeCountAppend(a: seq<Event>, b: seq<Event>)
    ensures InvokeCount(a + b) == InvokeCount(a) + InvokeCount(b)
  {
    if a != [] {
      assert (a + b)[0] == a[0];
      assert (a + b)[1..] == a[1..] + b;
      InvokeCountAppend(a[1..], b);
    } else {
      assert a + b == b;
    }
  }

  /** A failed attempt invokes once and is followed by the rest of the loop. */
  lemma FailedAttemptShape(age: Duration, maxRetries: int, cc: Option<Handle>, env: Env,
                           attempt: nat, err: Option<Error>, ms: ManagerState)
    requires attempt < maxRetries && Continues(env, attempt)
    ensures var prefix := FailedAttempt(age, cc, env, attempt, ms);
      var rest := Retry(age, maxRetries, cc, env, attempt + 1, env.invoke(attempt), StateAfter(age, env, attempt, ms));
      var r := Retry(age, maxRetries, cc, env, attempt, err, ms);
      && r.trace == prefix + rest.trace
      && r.err == rest.err && r.state == rest.state
      && InvokeCount(r.trace) == 1 + InvokeCount(rest.trace)
      && prefix[0] == Invoked(attempt, cc)
      && forall i :: 0 <= i < |prefix| ==> prefix[i].attempt == attempt
  {
    var prefix := FailedAttempt(age, cc, env, attempt, ms);
    var rest := Retry(age, maxRetries, cc, env, attempt + 1, env.invoke(attempt), StateAfter(age, env, attempt, ms));
    InvokeCountAppend(prefix, rest.trace);
    if |prefix| == 3 {
      assert prefix[2..][1..] == [];
      assert InvokeCount(prefix[2..]) == 0;
      assert prefix[1..][1..] == prefix[2..];
      assert InvokeCount(prefix[1..]) == 0;
    } else {
      assert prefix[1..] == [];
    }
  }

  /** A failed attempt, then the rest of the loop. */
  lemma RetryContinues(age: Duration, maxRetries: int, cc: Option<Handle>, env: Env,
                       attempt: nat, err: Option<Error>, ms: ManagerState)
    requires attempt < maxRetries && Continues(env, attempt)
    ensures Retry(age, maxRetries, cc, env, attempt, err, ms)
         == Resumed(FailedAttempt(age, cc, env, attempt, ms),
                    Retry(age, maxRetries, cc, env, attempt + 1, env.invoke(attempt), StateAfter(age, env, attempt, ms)))
  {
  }

  /** An attempt that ends the call, or the end of the loop. */
  lemma RetryStops(age: Duration, maxRetries: int, cc: Option<Handle>, env: Env,
                   attempt: nat, err: Option<Error>, ms: ManagerState)
    requires attempt >= maxRetries || !Continues(env, attempt)
    ensures Retry(age, maxRetries, cc, env, attempt, err, ms)
         == if attempt >= maxRetries then Run(err, [], ms) else FinalAttempt(cc, env, attempt, ms)
  {
  }

  lemma ResumedTwice(a: seq<Event>, b: seq<Event>, r: Run)
    ensures Resumed(a, Resumed(b, r)) == Resumed(a + b, r)
  {
    assert a + (b + r.trace) == (a + b) + r.trace;
  }

  /**
   * At most `maxRetries - attempt` invocations happen, and every event
   * belongs to an attempt of the loop's range.
   */
  lemma {:induction false} RetryBound(age: Duration, maxRetries: int, cc: Option<Handle>, env: Env,
                                      attempt: nat, err: Option<Error>, ms: ManagerState)
    ensures var r := Retry(age, maxRetries, cc, env, attempt, err, ms);
      && InvokeCount(r.trace) <= (if maxRetries > attempt then maxRetries - attempt else 0)
      && forall i :: 0 <= i < |r.trace| ==> attempt <= r.trace[i].attempt < maxRetries
    decreases maxRetries - attempt
  {
    if attempt < maxRetries && Continues(env, attempt) {
      var ms' := StateAfter(age, env, attempt, ms);
      RetryBound(age, maxRetries, cc, env, attempt + 1, env.invoke(attempt), ms');
      FailedAttemptShape(age, maxRetries, cc, env, attempt, err, ms);
      var prefix := FailedAttempt(age, cc, env, attempt, ms);
      var t := Retry(age, maxRetries, cc, env, attempt, err, ms).trace;
      forall i | |prefix| <= i < |t|
        ensures attempt <= t[i].attempt < maxRetries
      {
        assert t[i] == Retry(age, maxRetries, cc, env, attempt + 1, env.invoke(attempt), ms').trace[i - |prefix|];
      }
    } else if attempt < maxRetries {
      assert InvokeCount(FinalAttempt(cc, env, attempt, ms).trace[1..]) == 0;
    }
  }

  /** With a budget of zero or less the invoker is never called and the result is nil. */
  lemma ZeroBudget(age: Duration, maxRetries: int, cc: Option<Handle>, env: Env, ms: ManagerState)
    requires maxRetries <= 0
    ensures Intercept(age, maxRetries, cc, env, ms) == Run(None, [], ms)
  {
  }

  /** The invoker is called at most `maxRetries` times. */
  lemma InterceptBound(age: Duration, maxRetries: int, cc: Option<Handle>, env: Env, ms: ManagerState)
    ensures InvokeCount(Intercept(age, maxRetries, cc, env, ms).trace) <= (if maxRetries > 0 then maxRetries else 0)
  {
    RetryBound(age, maxRetries, cc, env, 0, None, ms);
  }

  /** Every invocation is made on the handle the call was issued on. */
  lemma {:induction false} InvokedOnOriginal(age: Duration, maxRetries: int, cc: Option<Handle>, env: Env,
                                             attempt: nat, err: Option<Error>, ms: ManagerState)
    ensures var t := Retry(age, maxRetries, cc, env, attempt, err, ms).trace;
      forall i :: 0 <= i < |t| && t[i].Invoked? ==> t[i].on == cc
    decreases maxRetries - attempt
  {
    if attempt < maxRetries && Continues(env, attempt) {
      var ms' := StateAfter(age, env, attempt, ms);
      InvokedOnOriginal(age, maxRetries, cc, env, attempt + 1, env.invoke(attempt), ms');
      RetryContinues(age, maxRetries, cc, env, attempt, err, ms);
      var prefix := FailedAttempt(age, cc, env, attempt, ms);
      var t := Retry(age, maxRetries, cc, env, attempt, err, ms).trace;
      forall i | |prefix| <= i < |t| && t[i].Invoked?
        ensures t[i].on == cc
      {
        assert t[i] == Retry(age, maxRetries, cc, env, attempt + 1, env.invoke(attempt), ms').trace[i - |prefix|];
      }
    }
  }

  /**
   * Waits and reconnects follow transient failures only; each wait lasts
   * `backoffDuration` of its attempt.
   */
  lemma {:induction false} BackoffOnlyWhenTransient(age: Duration, maxRetries: int, cc: Option<Handle>, env: Env,
                                                    attempt: nat, err: Option<Error>, ms: ManagerState)
    ensures var t := Retry(age, maxRetries, cc, env, attempt, err, ms).trace;
      forall i :: 0 <= i < |t| && (t[i].Waited? || t[i].Reconnected?) ==>
        && env.invoke(t[i].attempt).Some?
        && IsTransient(env.invoke(t[i].attempt).value)
        && !env.doneInWait(t[i].attempt)
        && (t[i].Waited? ==> t[i].delay == BackoffDuration(t[i].attempt))
    decreases maxRetries - attempt
  {
    if attempt < maxRetries && Continues(env, attempt) {
      var ms' := StateAfter(age, env, attempt, ms);
      BackoffOnlyWhenTransient(age, maxRetries, cc, env, attempt + 1, env.invoke(attempt), ms');
      RetryContinues(age, maxRetries, cc, env, attempt, err, ms);
      var prefix := FailedAttempt(age, cc, env, attempt, ms);
      var t := Retry(age, maxRetries, cc, env, attempt, err, ms).trace;
      forall i | |prefix| <= i < |t|
        ensures t[i] == Retry(age, maxRetries, cc, env, attempt + 1, env.invoke(attempt), ms').trace[i - |prefix|]
      {
      }
    }
  }

  /**
   * A nil result means exactly that the last invocation succeeded (or that
   * the loop never ran and the error variable was still nil); a successful
   * invocation is the last event.
   */
  lemma {:induction false} NilMeansSuccess(age: Duration, maxRetries: int, cc: Option<Handle>, env: Env,
                                           attempt: nat, err: Option<Error>, ms: ManagerState)
    ensures var r := Retry(age, maxRetries, cc, env, attempt, err, ms);
      && (r.err.None? <==> Succeeded(r.trace, env) || (attempt >= maxRetries && err.None?))
      && forall i :: 0 <= i < |r.trace| && r.trace[i].Invoked? && env.invoke(r.trace[i].attempt).None? ==>
           i == |r.trace| - 1
    decreases maxRetries - attempt
  {
    if attempt < maxRetries && Continues(env, attempt) {
      var ms' := StateAfter(age, env, attempt, ms);
      NilMeansSuccess(age, maxRetries, cc, env, attempt + 1, env.invoke(attempt), ms');
      FailedAttemptShape(age, maxRetries, cc, env, attempt, err, ms);
      var prefix := FailedAttempt(age, cc, env, attempt, ms);
      var rest := Retry(age, maxRetries, cc, env, attempt + 1, env.invoke(attempt), ms').trace;
      var t := Retry(age, maxRetries, cc, env, attempt, err, ms).trace;
      if rest != [] {
        assert t[|t| - 1] == rest[|rest| - 1];
      }
      forall i | 0 <= i < |t| && t[i].Invoked? && env.invoke(t[i].attempt).None?
        ensures i == |t| - 1
      {
        if i >= |prefix| {
          assert t[i] == rest[i - |prefix|];
        }
      }
    }
  }

  /** The first attempt `k` of the range that does not go on gives the call its error. */
  lemma {:induction false} StopDecides(age: Duration, maxRetries: int, cc: Option<Handle>, env: Env,
                                       attempt: nat, err: Option<Error>, ms: ManagerState, k: nat)
    requires attempt <= k < maxRetries
    requires forall j :: attempt <= j < k ==> Continues(env, j)
    requires !Continues(env, k)
    ensures var r := Retry(age, maxRetries, cc, env, attempt, err, ms);
      && r.err == FinalAttempt(cc, env, k, ms).err
      && InvokeCount(r.trace) == k - attempt + InvokeCount(FinalAttempt(cc, env, k, ms).trace)
    decreases k - attempt
  {
    if attempt < k {
      var ms' := StateAfter(age, env, attempt, ms);
      StopDecides(age, maxRetries, cc, env, attempt + 1, env.invoke(attempt), ms', k);
      FailedAttemptShape(age, maxRetries, cc, env, attempt, err, ms);
    }
  }

  /** The last event of the first attempt `k` that does not go on ends the trace. */
  lemma {:induction false} StopEndsTrace(age: Duration, maxRetries: int, cc: Option<Handle>, env: Env,
                                         attempt: nat, err: Option<Error>, ms: ManagerState, k: nat)
    requires attempt <= k < maxRetries
    requires forall j :: attempt <= j < k ==> Continues(env, j)
    requires !Continues(env, k)
    ensures var t := Retry(age, maxRetries, cc, env, attempt, err, ms).trace;
      var f := FinalAttempt(cc, env, k, ms).trace;
      |t| >= |f| > 0 && t[|t| - 1] == f[|f| - 1]
    decreases k - attempt
  {
    if attempt < k {
      var ms' := StateAfter(age, env, attempt, ms);
      StopEndsTrace(age, maxRetries, cc, env, attempt + 1, env.invoke(attempt), ms', k);
      RetryContinues(age, maxRetries, cc, env, attempt, err, ms);
    }
  }

  /**
   * The first attempt `k` of the range that does not go on decides the call.
   * A context done at its top returns the context's error with no invocation
   * at `k`. A success at `k` returns nil. A context done during the wait after
   * a transient failure at `k` returns the context's error. The invoker runs
   * once for each attempt before `k`, plus once at `k` unless the context was
   * done at its top, and the decisive event ends the trace.
   */
  lemma FirstStop(age: Duration, maxRetries: int, cc: Option<Handle>, env: Env,
                  attempt: nat, err: Option<Error>, ms: ManagerState, k: nat)
    requires attempt <= k < maxRetries
    requires forall j :: attempt <= j < k ==> Continues(env, j)
    requires !Continues(env, k)
    ensures var r := Retry(age, maxRetries, cc, env, attempt, err, ms);
      && |r.trace| > 0
      && (env.doneAtTop(k) ==>
            r.err == Some(ContextErr(env.ctxErr)) && InvokeCount(r.trace) == k - attempt
            && r.trace[|r.trace| - 1] == Cancelled(k))
      && (!env.doneAtTop(k) && env.invoke(k).None? ==>
            r.err == None && InvokeCount(r.trace) == k - attempt + 1
            && r.trace[|r.trace| - 1] == Invoked(k, cc))
      && (!env.doneAtTop(k) && env.invoke(k).Some? ==>
            && IsTransient(env.invoke(k).value) && env.doneInWait(k)
            && r.err == Some(ContextErr(env.ctxErr)) && InvokeCount(r.trace) == k - attempt + 1
            && r.trace[|r.trace| - 1] == Cancelled(k))
  {
    StopDecides(age, maxRetries, cc, env, attempt, err, ms, k);
    StopEndsTrace(age, maxRetries, cc, env, attempt, err, ms, k);
    var f := FinalAttempt(cc, env, k, ms).trace;
    assert InvokeCount(f[1..]) == 0 by {
      if |f| == 2 {
        assert f[1..][1..] == [];
      }
    }
  }

  /** A whole call returns nil exactly when the budget is not positive or an invocation succeeded. */
  lemma InterceptNil(age: Duration, maxRetries: int, cc: Option<Handle>, env: Env, ms: ManagerState)
    ensures var r := Intercept(age, maxRetries, cc, env, ms);
      r.err.None? <==> maxRetries <= 0 || Succeeded(r.trace, env)
  {
    NilMeansSuccess(age, maxRetries, cc, env, 0, None, ms);
  }

  /**
   * Observing cancellation ends the call with the context's error: it is the
   * last event, and it is observed only at the top of an attempt or during a
   * backoff wait that follows a transient failure.
   */
  lemma {:induction false} CancellationIsFinal(age: Duration, maxRetries: int, cc: Option<Handle>, env: Env,
                                               attempt: nat, err: Option<Error>, ms: ManagerState)
    ensures var r := Retry(age, maxRetries, cc, env, attempt, err, ms);
      forall i :: 0 <= i < |r.trace| && r.trace[i].Cancelled? ==>
        && i == |r.trace| - 1
        && r.err == Some(ContextErr(env.ctxErr))
        && (env.doneAtTop(r.trace[i].attempt)
            || (env.invoke(r.trace[i].attempt).Some? && IsTransient(env.invoke(r.trace[i].attempt).value)
                && env.doneInWait(r.trace[i].attempt)))
    decreases maxRetries - attempt
  {
    if attempt < maxRetries && Continues(env, attempt) {
      var ms' := StateAfter(age, env, attempt, ms);
      CancellationIsFinal(age, maxRetries, cc, env, attempt + 1, env.invoke(attempt), ms');
      RetryContinues(age, maxRetries, cc, env, attempt, err, ms);
      var prefix := FailedAttempt(age, cc, env, attempt, ms);
      var t := Retry(age, maxRetries, cc, env, attempt, err, ms).trace;
      forall i | |prefix| <= i < |t|
        ensures t[i] == Retry(age, maxRetries, cc, env, attempt + 1, env.invoke(attempt), ms').trace[i - |prefix|]
      {
      }
    }
  }

  /**
   * Without success or cancellation every attempt of the range invokes once,
   * and the error returned is the one of the last invocation.
   */
  lemma {:induction false} EveryAttemptFails(age: Duration, maxRetries: int, cc: Option<Handle>, env: Env,
                                             attempt: nat, err: Option<Error>, ms: ManagerState)
    requires forall k: nat :: attempt <= k < maxRetries ==> Continues(env, k)
    ensures var r := Retry(age, maxRetries, cc, env, attempt, err, ms);
      && InvokeCount(r.trace) == (if maxRetries > attempt then maxRetries - attempt else 0)
      && r.err == (if maxRetries > attempt then env.invoke(maxRetries - 1) else err)
    decreases maxRetries - attempt
  {
    if attempt < maxRetries {
      var ms' := StateAfter(age, env, attempt, ms);
      EveryAttemptFails(age, maxRetries, cc, env, attempt + 1, env.invoke(attempt), ms');
      FailedAttemptShape(age, maxRetries, cc, env, attempt, err, ms);
    }
  }

  /** `t` is `n` rounds of invoke, wait and reconnect, from `attempt` on. */
  ghost predicate Rounds(t: seq<Event>, cc: Option<Handle>, attempt: nat, n: nat) {
    && |t| == 3 * n
    && forall j :: 0 <= j < n ==>
         && t[3 * j] == Invoked(attempt + j, cc)
         && t[3 * j + 1] == Waited(attempt + j, BackoffDuration(attempt + j))
         && t[3 * j + 2].Reconnected? && t[3 * j + 2].attempt == attempt + j
  }

  /** One round followed by `n - 1` rounds is `n` rounds. */
  lemma RoundsCons(t: seq<Event>, prefix: seq<Event>, rest: seq<Event>, cc: Option<Handle>, attempt: nat, n: nat)
    requires n > 0 && t == prefix + rest && |prefix| == 3
    requires prefix[0] == Invoked(attempt, cc)
    requires prefix[1] == Waited(attempt, BackoffDuration(attempt))
    requires prefix[2].Reconnected? && prefix[2].attempt == attempt
    requires Rounds(rest, cc, attempt + 1, n - 1)
    ensures Rounds(t, cc, attempt, n)
  {
    forall j | 0 <= j < n
      ensures t[3 * j] == Invoked(attempt + j, cc)
      ensures t[3 * j + 1] == Waited(attempt + j, BackoffDuration(attempt + j))
      ensures t[3 * j + 2].Reconnected? && t[3 * j + 2].attempt == attempt + j
    {
      if j > 0 {
        var k := j - 1;
        assert 3 * j == 3 + 3 * k;
        assert t[3 * j] == rest[3 * k] && t[3 * j + 1] == rest[3 * k + 1] && t[3 * j + 2] == rest[3 * k + 2];
      }
    }
  }

  /**
   * If every attempt fails transiently and nothing is cancelled, the call
   * invokes exactly `maxRetries - attempt` times; each invocation on `cc` is
   * followed by one wait of its backoff and one `TryReconnect`, and the last
   * invocation's error is returned.
   */
  lemma {:induction false} AllTransient(age: Duration, maxRetries: int, cc: Option<Handle>, env: Env,
                                        attempt: nat, err: Option<Error>, ms: ManagerState)
    requires forall k: nat :: attempt <= k < maxRetries ==>
      && !env.doneAtTop(k) && !env.doneInWait(k)
      && env.invoke(k).Some? && IsTransient(env.invoke(k).value)
    ensures Rounds(Retry(age, maxRetries, cc, env, attempt, err, ms).trace, cc, attempt,
                             if maxRetries > attempt then maxRetries - attempt else 0)
    ensures Retry(age, maxRetries, cc, env, attempt, err, ms).err
              == if maxRetries > attempt then env.invoke(maxRetries - 1) else err
    decreases maxRetries - attempt
  {
    if attempt < maxRetries {
      assert Continues(env, attempt);
      var ms' := StateAfter(age, env, attempt, ms);
      AllTransient(age, maxRetries, cc, env, attempt + 1, env.invoke(attempt), ms');
      FailedAttemptShape(age, maxRetries, cc, env, attempt, err, ms);
      var rest := Retry(age, maxRetries, cc, env, attempt + 1, env.invoke(attempt), ms').trace;
      var t := Retry(age, maxRetries, cc, env, attempt, err, ms).trace;
      var prefix := FailedAttempt(age, cc, env, attempt, ms);
      assert prefix[1] == Waited(attempt, BackoffDuration(attempt));
      assert prefix[2].Reconnected? && prefix[2].attempt == attempt;
      RoundsCons(t, prefix, rest, cc, attempt, maxRetries - attempt);
    }
  }

  /**
   * If every attempt fails with a non-transient error and nothing is
   * cancelled, the call still invokes once per attempt of the range, on `cc`,
   * with no wait and no reconnect, and leaves the manager as it was.
   */
  lemma {:induction false} AllNonTransient(age: Duration, maxRetries: int, cc: Option<Handle>, env: Env,
                                           attempt: nat, err: Option<Error>, ms: ManagerState)
    requires forall k: nat :: attempt <= k < maxRetries ==>
      !env.doneAtTop(k) && env.invoke(k).Some? && !IsTransient(env.invoke(k).value)
    ensures var r := Retry(age, maxRetries, cc, env, attempt, err, ms);
      var n := if maxRetries > attempt then maxRetries - attempt else 0;
      && |r.trace| == n
      && (forall j :: 0 <= j < n ==> r.trace[j] == Invoked(attempt + j, cc))
      && r.state == ms
      && r.err == (if n > 0 then env.invoke(maxRetries - 1) else err)
    decreases maxRetries - attempt
  {
    if attempt < maxRetries {
      assert Continues(env, attempt);
      assert StateAfter(age, env, attempt, ms) == ms;
      AllNonTransient(age, maxRetries, cc, env, attempt + 1, env.invoke(attempt), ms);
      var n := maxRetries - attempt;
      var rest := Retry(age, maxRetries, cc, env, attempt + 1, env.invoke(attempt), ms).trace;
      var t := Retry(age, maxRetries, cc, env, attempt, err, ms).trace;
      assert t == [Invoked(attempt, cc)] + rest;
      forall j | 0 < j < n
        ensures t[j] == Invoked(attempt + j, cc)
      {
        assert t[j] == rest[j - 1];
      }
    }
  }

  /** An intercepted call keeps the manager's lifecycle invariant. */
  lemma {:induction false} RetryPreservesInvariant(age: Duration, maxRetries: int, cc: Option<Handle>, env: Env,
                                                   attempt: nat, err: Option<Error>, ms: ManagerState)
    requires Invariant(ms)
    ensures Invariant(Retry(age, maxRetries, cc, env, attempt, err, ms).state)
    decreases maxRetries - attempt
  {
    if attempt < maxRetries && Continues(env, attempt) {
      RepliesPreserve(age, ms, env.dial(attempt), env.clock(attempt));
      RetryPreservesInvariant(age, maxRetries, cc, env, attempt + 1, env.invoke(attempt), StateAfter(age, env, attempt, ms));
    }
  }

  /**
   * One pass of the loop body, the outer `select`. It either ends the call
   * (`stop`, with the call's error) or fails and goes on, leaving `err` as
   * the invocation's error. `newConn` is declared nil afresh on every pass,
   * as in the source, so the call is always invoked on `cc` and the handle
   * `TryReconnect` returns is dropped at the `continue`.
   */
  method Attempt(cm: ConnectionManager, cc: Option<Handle>, env: Env, attempt: nat)
    returns (stop: bool, err: Option<Error>, events: seq<Event>)
    requires cm.Valid()
    modifies cm, cm.connection1
    ensures cm.Valid()
    ensures stop <==> !Continues(env, attempt)
    ensures stop ==> Run(err, events, cm.State()) == FinalAttempt(cc, env, attempt, old(cm.State()))
    ensures !stop ==> && err == env.invoke(attempt)
                      && events == FailedAttempt(cm.maxConnectionAge, cc, env, attempt, old(cm.State()))
                      && cm.State() == StateAfter(cm.maxConnectionAge, env, attempt, old(cm.State()))
  {
    if env.doneAtTop(attempt) {
      return true, Some(ContextErr(env.ctxErr)), [Cancelled(attempt)];
    }
    var newConn: Option<Handle> := None;
    var on := if newConn == None then cc else newConn;
    err := env.invoke(attempt);
    events := [Invoked(attempt, on)];
    if err == None {
      return true, None, events;
    }
    if IsTransient(err.value) {
      if env.doneInWait(attempt) {
        return true, Some(ContextErr(env.ctxErr)), events + [Cancelled(attempt)];
      }
      events := events + [Waited(attempt, BackoffDuration(attempt))];
      var reconnectErr;
      newConn, reconnectErr := cm.TryReconnect(env.dial(attempt), env.clock(attempt));
      events := events + [Reconnected(attempt, newConn, reconnectErr)];
      return false, err, events;
    }
    return false, err, events;
  }

  /**
   * The closure `retryInterceptor(cm)` returns, applied to a call issued on
   * `cc`.
   */
  method RetryInterceptor(cm: ConnectionManager, cc: Option<Handle>, env: Env)
    returns (err: Option<Error>, trace: seq<Event>)
    requires cm.Valid()
    modifies cm, cm.connection1
    ensures cm.Valid()
    ensures Run(err, trace, cm.State()) == Intercept(cm.maxConnectionAge, cm.maxRetries, cc, env, old(cm.State()))
  {
    ghost var goal := Intercept(cm.maxConnectionAge, cm.maxRetries, cc, env, cm.State());
    err := None;
    trace := [];
    var attempt: nat := 0;
    while attempt < cm.maxRetries
      invariant cm.Valid()
      invariant Resumed(trace, Retry(cm.maxConnectionAge, cm.maxRetries, cc, env, attempt, err, cm.State())) == goal
      decreases cm.maxRetries - attempt
    {
      ghost var ms := cm.State();
      ghost var errIn := err;
      var stop, events;
      stop, err, events := Attempt(cm, cc, env, attempt);
      if stop {
        RetryStops(cm.maxConnectionAge, cm.maxRetries, cc, env, attempt, errIn, ms);
        ResumedTwice(trace, events, Run(err, [], cm.State()));
        return err, trace + events;
      }
      RetryContinues(cm.maxConnectionAge, cm.maxRetries, cc, env, attempt, errIn, ms);
      ResumedTwice(trace, events, Retry(cm.maxConnectionAge, cm.maxRetries, cc, env, attempt + 1, err, cm.State()));
      trace := trace + events;
      attempt := attempt + 1;
    }
    RetryStops(cm.maxConnectionAge, cm.maxRetries, cc, env, attempt, err, cm.State());
    return err, trace;
  }
}
