# glink connection core, modelled in Dafny

glink keeps one gRPC client connection "fresh" for a service. It replaces the
connection once it is older than a maximum age, and it retries unary calls
that fail with a transient status. This project models the sequential core of
three files and proves properties of it:

- `connection.go`, modelled in `connection.dfy` (module `Connections`). This is
  the connection slot: at most one current handle, the time it was installed,
  and its maximum age. `SetConnection` swaps the handle. The old handle is not
  closed at once; a goroutine closes it after a 10 s grace period. Here that
  goroutine is an entry `(handle, due)` of a pending-close queue. `Tick(now)`
  models time passing: every entry due by `now` closes its handle into a
  `closed` log, in queue order.
- `connection_manager.go`, modelled in `connection_manager.dfy` (module
  `ConnectionManagers`). This is the manager policy:
  - the 15 s floor on the maximum age;
  - `connect`, which dials and then installs the new handle;
  - `GetConnection`, which refreshes on expiry;
  - `TryReconnect`, which refreshes only 15 s or more after the last connect;
  - `Close`, `ShouldReconnect` and the backoff schedule.

  Each operation is a pure step on a `ManagerState`: the slot plus the number
  of handles dialed so far. The class `ConnectionManager` runs the same
  operations in place, and every method is proved equal to its step. The
  lifecycle invariant is proved about the steps. It says every handle ever
  dialed is still accounted for, in exactly one place (closed, pending, or
  current), and appears there once. It also says no other handle appears.
- `interceptors.go`, modelled in `interceptors.dfy` (module `Interceptors`).
  This is the retry loop of the unary client interceptor. `Retry` is a
  recursive specification of the loop. It returns the error, a trace of
  events (Invoked, Waited, Reconnected, Cancelled), and the manager's final
  state. The method `RetryInterceptor` runs the loop imperatively and is proved
  equal to `Retry`.

Supporting modules:

- `clock.dfy` (`Clock`): instants are nanoseconds since Go's zero `time.Time`.
  A Duration is a signed 64-bit count of nanoseconds. `Since` is Go's
  saturating `Sub`.
- `grpc.dfy` (`Grpc`): opaque handles, status codes, errors, dial outcomes,
  and the dial options.
- `wrappers.dfy` (`Wrappers`): `Option`.

Inputs the core gets from outside are parameters. The clock reading is
`now`, and the outcome of `grpc.NewClient` is a `DialResult`. For the
interceptor, an `Env` scripts these per attempt:

- the invoker's result;
- whether `ctx.Done()` is ready at the top of the loop;
- whether it wins the `select` against the backoff timer;
- the dial outcome and the time used by that attempt's `TryReconnect`;
- the context's error.

The model follows the code as written where its own text says otherwise:

- The comment at interceptors.go:51 says a non-retriable error returns
  immediately. But the `break` at interceptors.go:52 leaves only the
  `select`, so a non-transient error goes on to the next attempt, with no
  wait and no reconnect.
- The branch at interceptors.go:26-27 would invoke on the handle
  `TryReconnect` returned. It is dead: `newConn` is declared nil afresh at
  interceptors.go:22 on every pass. So every attempt is invoked on the
  original `cc`, and the handle and error `TryReconnect` returns are dropped
  at the `continue`.

## Model

| member | source | states |
|---|---|---|
| Clock.SinceAtLeast | connection_manager.go:107 | comparing the saturated elapsed time with a Duration bound agrees with comparing the exact difference (unless the bound is the minimum Duration and the clock went backwards) |
| Clock.SinceZeroTime | connection.go:71 | the time elapsed since the zero time is never negative |
| Connections.NewSlotExpired | connection.go:21-24 | a new Connection has no handle and maximum age 0, and reports expired at every instant |
| Connections.ExpiredMeansAged | connection.go:67-72 | `IsExpired` holds iff `now - lastConnection >= maxDuration` (whenever saturation cannot interfere) |
| Connections.SwappedExpiry | connection.go:50-51 | right after a swap with a positive maximum age the slot is not expired, it is not expired before that age has passed, and it is expired from then on |
| Connections.SwappedSchedulesOldHandle | connection.go:48-64 | a swap installs the new handle, age and time, closes nothing at once, and schedules exactly the handle it replaced (if any) for `now + 10 s` |
| Connections.DueHandlesMembers | connection.go:58-63 | a handle is closed by `now` iff some queued close for it has reached its due time |
| Connections.NotDueMembers | connection.go:58-63 | an entry still waits at `now` iff it was queued and its due time is later than `now` |
| Connections.DrainSplits | connection.go:58-63 | when due closes fire, every queued handle is either closed or still waiting, exactly once: none is lost or duplicated |
| Connections.DrainedEventually | connection.go:58-63 | once every due time has passed the queue is empty and every queued handle is closed |
| Connections.GracePeriodScenario | connection_manager_test.go:36-81 | after installing `h1` and then `h2` at `t2`, `h1` is still open before `t2 + 10 s` and closed exactly once from then on |
| Connections.Connection.constructor | connection.go:21-24 | `NewConnection(id)` keeps the id, has no handle, a zero timestamp and maximum age 0 |
| Connections.Connection.IsExpired | connection.go:67-72 | the result is the raw age test, and a connection never set (zero time, non-positive age) is expired; as a function it changes no field |
| Connections.Connection.SetConnection | connection.go:42-65 | the handle, timestamp and age are replaced, the closed log is untouched, and one close of the previous handle (if any) is scheduled at the end of the grace period |
| Connections.Connection.Close | connection.go:33-40 | the current handle is closed once and cleared; timestamp, age and pending closes are unchanged |
| Connections.Connection.Tick | connection.go:58-63 | the due closes fire in queue order, the others keep waiting, and nothing else changes |
| ConnectionManagers.ClampAge | connection_manager.go:44-47 | the stored age is the requested one raised to the 15 s floor |
| ConnectionManagers.RetriesAsInt | connection_manager.go:52 | `int(maxRetries)` keeps the value modulo 2^64 within the int64 range, and keeps it exactly when it fits |
| ConnectionManagers.BackoffDoubles | connection_manager.go:121-127 | the backoff starts at 100 ms and doubles with each attempt |
| ConnectionManagers.BackoffIncreasing | connection_manager.go:121-127 | later attempts wait strictly longer, and never less than 100 ms |
| ConnectionManagers.InvariantMeans | connection.go:33-64 | under the lifecycle invariant no handle is closed twice, queued twice, or both closed and queued; the current handle is neither; and every handle dialed so far is closed, queued or current |
| ConnectionManagers.NewManagerInvariant | connection_manager.go:49-54 | a new manager satisfies the lifecycle invariant |
| ConnectionManagers.ConnectPreserves | connection_manager.go:67-83 | `connect` keeps the lifecycle invariant |
| ConnectionManagers.ClosePreserves | connection_manager.go:85-90 | `Close` keeps the lifecycle invariant |
| ConnectionManagers.TickPreserves | connection.go:58-63 | the grace-period closes keep the lifecycle invariant |
| ConnectionManagers.RepliesPreserve | connection_manager.go:92-115 | `GetConnection` and `TryReconnect` keep the lifecycle invariant |
| ConnectionManagers.ConnectOutcome | connection_manager.go:67-83 | a failed dial returns its error and changes nothing; a successful one returns nil and swaps in a handle never held before |
| ConnectionManagers.FirstGetConnectionDials | connection_manager.go:95-98 | a fresh manager's first `GetConnection` always dials: it returns the new handle or the dial error with the manager untouched |
| ConnectionManagers.GetConnectionWhenFresh | connection_manager.go:92-102 | an unexpired handle is returned with a nil error and no change |
| ConnectionManagers.GetConnectionWhenExpired | connection_manager.go:92-102 | an expired handle is replaced on a successful dial; on a failed dial the old handle comes back with the error |
| ConnectionManagers.ThrottleHoldsHandle | connection_manager.go:104-115 | within 15 s of the last connect `TryReconnect` returns the current handle, a nil error, and changes nothing |
| ConnectionManagers.ThrottleReleasesHandle | connection_manager.go:104-115 | 15 s or more after the last connect `TryReconnect` dials; a failure returns the old handle with the error, a success a different handle, with the old one queued for closing |
| ConnectionManagers.ThrottleScenario | connection_manager_test.go:153-185 | three `TryReconnect` calls: the second (within 15 s) returns the first handle, the third (15 s later) a different one, and the first is closed only once the grace period has passed |
| ConnectionManagers.CloseClosesCurrent | connection_manager.go:85-90 | the manager's `Close` clears the slot and closes the current handle exactly once |
| ConnectionManagers.ConnectionManager.constructor | connection_manager.go:37-64 | `New` stores the address, the clamped age, `int(maxRetries)` and the three dial options in order, and starts from an empty Connection satisfying the lifecycle invariant |
| ConnectionManagers.ConnectionManager.Connect | connection_manager.go:67-83 | a failed dial returns its error and leaves the state unchanged; a successful one installs a new handle with the manager's age and returns nil |
| ConnectionManagers.ConnectionManager.Close | connection_manager.go:85-90 | the current handle moves to the closed log and the slot is cleared |
| ConnectionManagers.ConnectionManager.GetConnection | connection_manager.go:92-102 | when not expired, the current handle with nil and no change; when expired, the result of `connect` and the handle then current |
| ConnectionManagers.ConnectionManager.TryReconnect | connection_manager.go:104-115 | when throttled, the current handle with nil and no change; otherwise the result of `connect` and the handle then current |
| ConnectionManagers.ConnectionManager.ShouldReconnect | connection_manager.go:117-119 | the answer is the Connection's `IsExpired` |
| ConnectionManagers.ConnectionManager.Tick | connection.go:58-63 | the due grace-period closes run |
| Interceptors.FailedAttemptShape | interceptors.go:22-48 | an attempt that goes on invokes once on `cc`, then (after a transient error) waits and reconnects, and is followed by the rest of the loop |
| Interceptors.RetryBound | interceptors.go:16 | from any attempt on, at most `maxRetries - attempt` invocations happen and every event belongs to an attempt in range |
| Interceptors.ZeroBudget | interceptors.go:14-56 | with `maxRetries <= 0` nothing is invoked and the result is nil |
| Interceptors.InterceptBound | interceptors.go:16 | the invoker is called at most `maxRetries` times |
| Interceptors.InvokedOnOriginal | interceptors.go:22-28 | every invocation is made on the handle the call was issued on |
| Interceptors.BackoffOnlyWhenTransient | interceptors.go:36-48 | waits and reconnects follow only transient errors whose wait was not cancelled, and each wait lasts the attempt's backoff |
| Interceptors.NilMeansSuccess | interceptors.go:30-56 | the result is nil iff the last event is a successful invocation (or the loop never ran), and a success ends the trace |
| Interceptors.InterceptNil | interceptors.go:30-56 | a whole call returns nil iff the budget is not positive or an invocation succeeded |
| Interceptors.CancellationIsFinal | interceptors.go:17-41 | a cancellation is the last event, returns the context's error, and is observed only at the top of an attempt or during a backoff wait |
| Interceptors.StopDecides | interceptors.go:16-33 | the first attempt of the range that does not go on gives the call its error, after one invocation for each earlier attempt |
| Interceptors.StopEndsTrace | interceptors.go:16-41 | the last event of the first attempt that does not go on is the last event of the call |
| Interceptors.FirstStop | interceptors.go:17-41 | at the first attempt `k` that does not go on: a context done at its top returns the context error with `k - attempt` invocations; a success returns nil with one more; otherwise the transient failure's wait was cancelled and the context error is returned; the decisive event ends the trace |
| Interceptors.EveryAttemptFails | interceptors.go:16-56 | without success or cancellation every attempt invokes once and the last invocation's error is returned |
| Interceptors.AllTransient | interceptors.go:36-56 | when every attempt fails transiently without cancellation: `maxRetries` rounds of invoke on `cc`, backoff wait and reconnect, and the last error returned |
| Interceptors.AllNonTransient | interceptors.go:36-53 | when every attempt fails non-transiently: one invocation per attempt on `cc`, no wait, no reconnect, the manager unchanged, and the last error returned |
| Interceptors.RetryPreservesInvariant | interceptors.go:46 | an intercepted call keeps the manager's lifecycle invariant |
| Interceptors.Attempt | interceptors.go:17-53 | one pass of the loop body either ends the call as the specification's final attempt or fails and goes on, with the events and manager state of a failed attempt |
| Interceptors.RetryInterceptor | interceptors.go:13-57 | the loop's error, trace and resulting manager state are those of the recursive specification `Intercept` |

## Left out

- Locks: the `sync.Mutex` and `sync.RWMutex` of both structs. The model is sequential.
- The grace-period goroutine: it is a pending-close entry, and `Tick` is the scheduler letting the due ones run. When several closes are due at once they fire in queue order.
- The unlocked read of `lastConnection` in `TryReconnect` (connection_manager.go:107). It is a concurrency artefact, and the model reads it like any field.
- gRPC itself: `grpc.NewClient`, the connectivity states, and the contents of the dial options and the service config. A dial yields a fresh handle or an error. Handles are serial numbers drawn from the count of dials, so a new handle is always different from earlier ones.
- Clock and sleeps: `time.Now`, `time.Sleep` and `time.After` become explicit instants. `SetConnection` and the `IsExpired` test before it read the same instant `now`.
- The random choice of Go's `select` when the timer and `ctx.Done` are both ready: `Env.doneInWait` decides it.
- ConnectionManagers.BackoffDuration: it is the exact integer `100 ms * 2^attempt`. The `float64` and `math.Pow` arithmetic is not modelled, nor the conversion back to `time.Duration` and its overflow for large attempts.
- Logging (the logger of log.go and the `logger` flag of `New`): no decision depends on it.
- The retry log line of each transient retry.
- The bufconn test plumbing of connection_manager_test.go.
- Connections.Connection.Close: the source dereferences the handle unconditionally, so calling it with no handle panics. The model requires a handle instead of modelling the panic. The manager's `Close` inherits this requirement.
- ConnectionManagers.ConnectionManager.Valid: it holds only the manager's shape. The lifecycle invariant is proved about the step functions the methods are tied to, and not restated as a class invariant.
- `Connection()` is a plain read of the field. Being a Dafny function it changes nothing, and it needs no contract of its own.
