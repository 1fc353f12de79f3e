/**
 * The connection manager of connection_manager.go: it owns one Connection,
 * decides when to dial a new client connection, and defines the backoff
 * schedule of the retry interceptor.
 *
 * The pure part states each operation as a step on a `ManagerState` (the
 * Connection's state plus the count of handles dialed so far); the class
 * `ConnectionManager` performs the same operations in place and is proved to
 * agree with those steps.
 */
module ConnectionManagers {
  import opened Wrappers
  import opened Clock
  import opened Grpc
  import opened Connections

  /** The floor on the maximum age and the reconnect throttle (connection_manager.go:12). */
  const MinConnectionAge: Duration := 15 * Second

  /** The first backoff delay (connection_manager.go:122). */
  const BaseRetryDelay: int := 100 * Millisecond

  const TwoTo64: int := 0x1_0000_0000_0000_0000

  /** Go's `uint` on a 64-bit platform. */
  type Uint = u: int | 0 <= u < TwoTo64

  /** The maximum age `New` stores: the requested one, raised to the floor. */
  function ClampAge(requested: Duration): (age: Duration)
    ensures age >= requested && age >= MinConnectionAge
    ensures age == requested || age == MinConnectionAge
  {
    if requested < MinConnectionAge then MinConnectionAge else requested
  }

  /**
   * `int(maxRetries)`: the conversion keeps the 64 bits, so budgets of 2^63
   * and more become negative.
   */
  function RetriesAsInt(u: Uint): (n: int)
    ensures MinDuration <= n <= MaxDuration
    ensures (n - u) % TwoTo64 == 0
    ensures u <= MaxDuration ==> n == u
  {
    if u <= MaxDuration then u else u - TwoTo64
  }

  function Pow2(k: nat): (p: nat)
    ensures p >= 1
  {
    if k == 0 then 1 else 2 * Pow2(k - 1)
  }

  /**
   * `backoffDuration(attempt)`: 100ms times 2 to the power `attempt`, in
   * nanoseconds, as an exact integer.
   */
  function BackoffDuration(attempt: nat): (d: nat) {
    BaseRetryDelay * Pow2(attempt)
  }

  /** The schedule starts at the base delay and doubles with every attempt. */
  lemma BackoffDoubles(attempt: nat)
    ensures BackoffDuration(0) == 100 * Millisecond
    ensures BackoffDuration(attempt + 1) == 2 * BackoffDuration(attempt)
  {
  }

  /** Later attempts wait strictly longer. */
  lemma {:induction false} BackoffIncreasing(j: nat, k: nat)
    requires j < k
    ensures BaseRetryDelay <= BackoffDuration(j) < BackoffDuration(k)
  {
    if j + 1 < k {
      BackoffIncreasing(j, k - 1);
    }
  }

  /** What the manager owns: its Connection's state and the number of handles dialed. */
  datatype ManagerState = ManagerState(slot: Slot, issued: nat)

  /** The state `New` starts from: an empty Connection, nothing dialed yet. */
  function NewManagerState(): ManagerState {
    ManagerState(NewSlot(), 0)
  }

  /** `connect`'s effect and its returned error. */
  datatype ConnectResult = ConnectResult(state: ManagerState, err: Option<Error>)

  /** `GetConnection`'s and `TryReconnect`'s effect and their returned pair. */
  datatype Reply = Reply(state: ManagerState, handle: Option<Handle>, err: Option<Error>)

  /**
   * `connect`: dial; on failure return the error and change nothing, on
   * success install the new handle with the manager's maximum age.
   */
  function ConnectStep(age: Duration, ms: ManagerState, dial: DialResult, now: Time): ConnectResult {
    match dial
    case DialFailed(e) => ConnectResult(ms, Some(e))
    case Dialed => ConnectResult(ManagerState(Swapped(ms.slot, Some(Handle(ms.issued)), age, now), ms.issued + 1), None)
  }

  /** `GetConnection`: reconnect first when the current handle is expired. */
  function GetConnectionStep(age: Duration, ms: ManagerState, dial: DialResult, now: Time): Reply {
    if Expired(ms.slot, now) then
      var c := ConnectStep(age, ms, dial, now);
      Reply(c.state, c.state.slot.connection, c.err)
    else
      Reply(ms, ms.slot.connection, None)
  }

  /** The throttle test of `TryReconnect` (connection_manager.go:107). */
  predicate ReconnectAllowed(s: Slot, now: Time) {
    Since(now, s.lastConnection) >= MinConnectionAge
  }

  /** `TryReconnect`: reconnect only when the last connect is at least 15 s old. */
  function TryReconnectStep(age: Duration, ms: ManagerState, dial: DialResult, now: Time): Reply {
    if ReconnectAllowed(ms.slot, now) then
      var c := ConnectStep(age, ms, dial, now);
      Reply(c.state, c.state.slot.connection, c.err)
    else
      Reply(ms, ms.slot.connection, None)
  }

  /** The manager's `Close`. */
  function CloseStep(ms: ManagerState): ManagerState
    requires ms.slot.connection.Some?
  {
    ms.(slot := TornDown(ms.slot))
  }

  /** The close goroutines that are due by `now` run. */
  function TickStep(ms: ManagerState, now: Time): ManagerState {
    ms.(slot := Drained(ms.slot, now))
  }

  /** The handle currently installed, as a sequence of zero or one handles. */
  function Current(s: Slot): seq<Handle> {
    if s.connection.Some? then [s.connection.value] else []
  }

  /** Every handle the slot has ever held: closed, waiting to be closed, or current. */
  function Live(s: Slot): seq<Handle> {
    s.closed + Handles(s.pending) + Current(s)
  }

  ghost predicate Distinct(hs: seq<Handle>) {
    forall h :: multiset(hs)[h] <= 1
  }

  /**
   * The lifecycle invariant: each handle dialed so far is somewhere (closed,
   * pending, or current), in exactly one place and once, and no handle is one
   * that has not been dialed yet.
   */
  ghost predicate Invariant(ms: ManagerState) {
    && Distinct(Live(ms.slot))
    && (forall h :: h in Live(ms.slot) ==> h.serial < ms.issued)
    && forall n: nat :: n < ms.issued ==> Handle(n) in Live(ms.slot)
  }

  /** What the invariant means for the Connection's users. */
  lemma InvariantMeans(ms: ManagerState)
    requires Invariant(ms)
    ensures forall h :: multiset(ms.slot.closed)[h] <= 1
    ensures forall h :: multiset(Handles(ms.slot.pending))[h] <= 1
    ensures forall h :: h in ms.slot.closed ==> h !in Handles(ms.slot.pending)
    ensures ms.slot.connection.Some? ==>
              && ms.slot.connection.value !in ms.slot.closed
              && ms.slot.connection.value !in Handles(ms.slot.pending)
    ensures forall n: nat :: n < ms.issued ==>
              Handle(n) in ms.slot.closed || Handle(n) in Handles(ms.slot.pending) || ms.slot.connection == Some(Handle(n))
  {
    var s := ms.slot;
    var live := multiset(Live(s));
    assert live == multiset(s.closed) + multiset(Handles(s.pending)) + multiset(Current(s));
    forall h
      ensures multiset(s.closed)[h] + multiset(Handles(s.pending))[h] + multiset(Current(s))[h] <= 1
    {
      assert live[h] == multiset(s.closed)[h] + multiset(Handles(s.pending))[h] + multiset(Current(s))[h];
    }
    forall h | h in s.closed
      ensures h !in Handles(s.pending)
    {
      assert multiset(s.closed)[h] >= 1;
    }
    if s.connection.Some? {
      assert multiset(Current(s))[s.connection.value] == 1;
    }
  }

  lemma HandlesAppend(p: seq<PendingClose>, q: seq<PendingClose>)
    ensures Handles(p + q) == Handles(p) + Handles(q)
  {
  }

  /** The invariant holds of a new manager. */
  lemma NewManagerInvariant()
    ensures Invariant(NewManagerState())
  {
    assert Live(NewSlot()) == [];
  }

  /** `connect` keeps the invariant, because the dialed handle is new. */
  lemma ConnectPreserves(age: Duration, ms: ManagerState, dial: DialResult, now: Time)
    requires Invariant(ms)
    ensures Invariant(ConnectStep(age, ms, dial, now).state)
  {
    if dial.Dialed? {
      var s, h := ms.slot, Handle(ms.issued);
      var s' := ConnectStep(age, ms, dial, now).state.slot;
      HandlesAppend(s.pending, Superseded(s, now));
      assert Handles(Superseded(s, now)) == Current(s);
      assert Live(s') == s.closed + Handles(s.pending) + Current(s) + [h];
      assert multiset(Live(s')) == multiset(Live(s)) + multiset{h};
      assert h !in Live(s);
    }
  }

  /** Moving handles around without adding or dropping any keeps the invariant. */
  lemma SameHandlesPreserve(ms: ManagerState, ms': ManagerState)
    requires Invariant(ms)
    requires multiset(Live(ms'.slot)) == multiset(Live(ms.slot)) && ms'.issued == ms.issued
    ensures Invariant(ms')
  {
    forall h | h in Live(ms'.slot)
      ensures h.serial < ms'.issued
    {
      assert h in multiset(Live(ms.slot));
    }
    forall n: nat | n < ms'.issued
      ensures Handle(n) in Live(ms'.slot)
    {
      assert Handle(n) in multiset(Live(ms.slot));
    }
  }

  /** `Close` keeps the invariant: the current handle moves to the closed log. */
  lemma ClosePreserves(ms: ManagerState)
    requires Invariant(ms) && ms.slot.connection.Some?
    ensures Invariant(CloseStep(ms))
  {
    var s := ms.slot;
    assert multiset(Live(CloseStep(ms).slot)) == multiset(Live(s));
    SameHandlesPreserve(ms, CloseStep(ms));
  }

  /** The close goroutines keep the invariant: handles move from pending to closed. */
  lemma TickPreserves(ms: ManagerState, now: Time)
    requires Invariant(ms)
    ensures Invariant(TickStep(ms, now))
  {
    var s, s' := ms.slot, TickStep(ms, now).slot;
    var due, rest := DueHandles(s.pending, now), Handles(NotDue(s.pending, now));
    DrainSplits(s.pending, now);
    assert Live(s') == s.closed + due + rest + Current(s);
    calc {
      multiset(Live(s'));
      multiset(s.closed) + multiset(due) + multiset(rest) + multiset(Current(s));
      multiset(s.closed) + multiset(Handles(s.pending)) + multiset(Current(s));
      multiset(Live(s));
    }
    SameHandlesPreserve(ms, TickStep(ms, now));
  }

  /** `GetConnection` and `TryReconnect` keep the invariant. */
  lemma RepliesPreserve(age: Duration, ms: ManagerState, dial: DialResult, now: Time)
    requires Invariant(ms)
    ensures Invariant(GetConnectionStep(age, ms, dial, now).state)
    ensures Invariant(TryReconnectStep(age, ms, dial, now).state)
  {
    ConnectPreserves(age, ms, dial, now);
  }

  /**
   * A successful connect installs a handle never seen before and schedules the
   * one it replaces; a failed one changes nothing.
   */
  lemma ConnectOutcome(age: Duration, ms: ManagerState, dial: DialResult, now: Time)
    requires Invariant(ms)
    ensures var c := ConnectStep(age, ms, dial, now);
      && (dial.DialFailed? ==> c.state == ms && c.err == Some(dial.err))
      && (dial.Dialed? ==>
            && c.err == None
            && c.state.slot == Swapped(ms.slot, c.state.slot.connection, age, now)
            && c.state.slot.connection.Some?
            && c.state.slot.connection.value !in Live(ms.slot))
  {
  }

  /** A fresh manager's first `GetConnection` dials (connection_manager_test.go:105-114). */
  lemma FirstGetConnectionDials(requested: Duration, dial: DialResult, now: Time)
    ensures var r := GetConnectionStep(ClampAge(requested), NewManagerState(), dial, now);
      && (dial.Dialed? ==> r.handle == Some(Handle(0)) && r.err == None
                           && r.state.slot.maxDuration == ClampAge(requested)
                           && r.state.slot.lastConnection == now)
      && (dial.DialFailed? ==> r.handle == None && r.err == Some(dial.err) && r.state == NewManagerState())
  {
    NewSlotExpired(now);
  }

  /** An unexpired handle is returned as it is, with no error and no change. */
  lemma GetConnectionWhenFresh(age: Duration, ms: ManagerState, dial: DialResult, now: Time)
    requires ms.slot.lastConnection <= now < ms.slot.lastConnection + ms.slot.maxDuration
    ensures GetConnectionStep(age, ms, dial, now) == Reply(ms, ms.slot.connection, None)
  {
    ExpiredMeansAged(ms.slot, now);
  }

  /**
   * An expired handle is replaced when the dial succeeds; when it fails, the
   * old handle comes back together with the dial error.
   */
  lemma GetConnectionWhenExpired(age: Duration, ms: ManagerState, dial: DialResult, now: Time)
    requires ms.slot.maxDuration > MinDuration || now >= ms.slot.lastConnection
    requires now - ms.slot.lastConnection >= ms.slot.maxDuration
    ensures var r := GetConnectionStep(age, ms, dial, now);
      && (dial.DialFailed? ==> r == Reply(ms, ms.slot.connection, Some(dial.err)))
      && (dial.Dialed? ==> r.handle == Some(Handle(ms.issued)) && r.err == None
                           && r.state.slot.lastConnection == now)
  {
    ExpiredMeansAged(ms.slot, now);
  }

  /** Within 15 s of the last connect, `TryReconnect` neither dials nor changes anything. */
  lemma ThrottleHoldsHandle(age: Duration, ms: ManagerState, dial: DialResult, now: Time)
    requires ms.slot.lastConnection <= now < ms.slot.lastConnection + MinConnectionAge
    ensures TryReconnectStep(age, ms, dial, now) == Reply(ms, ms.slot.connection, None)
  {
    SinceAtLeast(now, ms.slot.lastConnection, MinConnectionAge);
  }

  /**
   * 15 s or more after the last connect, `TryReconnect` dials; on success it
   * returns a handle different from the one it replaces.
   */
  lemma ThrottleReleasesHandle(age: Duration, ms: ManagerState, dial: DialResult, now: Time)
    requires Invariant(ms)
    requires now >= ms.slot.lastConnection + MinConnectionAge
    ensures var r := TryReconnectStep(age, ms, dial, now);
      && (dial.DialFailed? ==> r == Reply(ms, ms.slot.connection, Some(dial.err)))
      && (dial.Dialed? ==> r.err == None && r.handle.Some? && r.handle != ms.slot.connection
                           && r.state.slot.pending == ms.slot.pending + Superseded(ms.slot, now))
  {
    SinceAtLeast(now, ms.slot.lastConnection, MinConnectionAge);
    if dial.Dialed? && ms.slot.connection.Some? {
      assert ms.slot.connection.value in Live(ms.slot);
    }
  }

  /**
   * The throttle test (connection_manager_test.go:153-185): on a new manager,
   * `TryReconnect` at `t1` dials; again before `t1` + 15 s it returns the same
   * handle; at `t3` >= `t1` + 15 s it returns a different one; and the first
   * handle is closed once the grace period after `t3` has passed, not before.
   */
  lemma ThrottleScenario(age: Duration, t1: Time, t2: Time, t3: Time, t4: Time)
    requires MinConnectionAge <= t1 <= t2 < t1 + MinConnectionAge <= t3
    ensures var r1 := TryReconnectStep(age, NewManagerState(), Dialed, t1);
      var r2 := TryReconnectStep(age, r1.state, Dialed, t2);
      var r3 := TryReconnectStep(age, r2.state, Dialed, t3);
      var s4 := TickStep(r3.state, t4);
      && r1.err == None && r2.err == None && r3.err == None
      && r1.handle.Some? && r2.handle == r1.handle && r3.handle != r1.handle
      && (t4 < t3 + GracePeriod ==> r1.handle.value !in s4.slot.closed)
      && (t4 >= t3 + GracePeriod ==> s4.slot.closed == [r1.handle.value] && s4.slot.pending == [])
  {
    SinceAtLeast(t1, ZeroTime, MinConnectionAge);
    var r1 := TryReconnectStep(age, NewManagerState(), Dialed, t1);
    NewManagerInvariant();
    ConnectPreserves(age, NewManagerState(), Dialed, t1);
    ThrottleHoldsHandle(age, r1.state, Dialed, t2);
    ThrottleReleasesHandle(age, r1.state, Dialed, t3);
    var r3 := TryReconnectStep(age, r1.state, Dialed, t3);
    assert r3.state.slot.pending == [PendingClose(r1.handle.value, t3 + GracePeriod)];
    assert r3.state.slot.closed == [];
    DrainOne(PendingClose(r1.handle.value, t3 + GracePeriod), t4);
  }

  /** The manager's `Close` closes the current handle and clears the slot. */
  lemma CloseClosesCurrent(ms: ManagerState)
    requires Invariant(ms) && ms.slot.connection.Some?
    ensures CloseStep(ms).slot.connection == None
    ensures CloseStep(ms).slot.closed == ms.slot.closed + [ms.slot.connection.value]
    ensures multiset(CloseStep(ms).slot.closed)[ms.slot.connection.value] == 1
  {
    InvariantMeans(ms);
  }

  /** connection_manager.go's `ConnectionManager`. */
  class ConnectionManager {
    const connection1: Connection
    const maxConnectionAge: Duration
    const maxRetries: int
    const serviceAddress: string
    const dialOpts: seq<DialOption>
    /** How many handles `grpc.NewClient` has returned to this manager. */
    var issued: nat

    function State(): ManagerState
      reads this, connection1
    {
      ManagerState(connection1.State(), issued)
    }

    /**
     * The manager's shape: the Connection is named after the service and the
     * age is clamped. The lifecycle `Invariant` is a property of the step
     * functions each method refines, proved by the `...Preserves` lemmas.
     */
    ghost predicate Valid()
      reads this, connection1
    {
      connection1.id == serviceAddress && maxConnectionAge >= MinConnectionAge
    }

    /**
     * `New`. The logging flag only switches the logger on, and logging is
     * not part of this model.
     */
    constructor (serviceAddress: string, maxConnectionAge: Duration, maxRetries: Uint, logger: bool)
      ensures Valid() && fresh(connection1)
      ensures Invariant(State())
      ensures this.serviceAddress == serviceAddress
      ensures this.maxConnectionAge == ClampAge(maxConnectionAge)
      ensures this.maxRetries == RetriesAsInt(maxRetries)
      ensures dialOpts == [InsecureTransportCredentials, RoundRobinServiceConfig, RetryUnaryInterceptor]
      ensures State() == NewManagerState()
    {
      this.serviceAddress := serviceAddress;
      this.maxConnectionAge := ClampAge(maxConnectionAge);
      this.maxRetries := RetriesAsInt(maxRetries);
      connection1 := new Connection(serviceAddress);
      var dialOptions: seq<DialOption> := [];
      dialOptions := dialOptions + [InsecureTransportCredentials];
      dialOptions := dialOptions + [RoundRobinServiceConfig];
      dialOptions := dialOptions + [RetryUnaryInterceptor];
      dialOpts := dialOptions;
      issued := 0;
      new;
      NewManagerInvariant();
    }

    /** `connect`, with the outcome of `grpc.NewClient` given as `dial`. */
    method Connect(dial: DialResult, now: Time) returns (err: Option<Error>)
      requires Valid()
      modifies this, connection1
      ensures Valid()
      ensures dial.DialFailed? ==> err == Some(dial.err) && State() == old(State())
      ensures dial.Dialed? ==> err == None && issued == old(issued) + 1
                               && connection1.State() == Swapped(old(connection1.State()), Some(Handle(old(issued))), maxConnectionAge, now)
      ensures ConnectResult(State(), err) == ConnectStep(maxConnectionAge, old(State()), dial, now)
    {
      match dial
      case DialFailed(grpcErr) =>
        return Some(grpcErr);
      case Dialed =>
        var conn := Handle(issued);
        issued := issued + 1;
        connection1.SetConnection(Some(conn), maxConnectionAge, now);
        return None;
    }

    /** `Close`: closes the current handle; the source requires one to be set. */
    method Close()
      requires Valid() && connection1.connection.Some?
      modifies connection1
      ensures Valid()
      ensures connection1.connection == None
      ensures connection1.closed == old(connection1.closed) + [old(connection1.connection).value]
      ensures State() == CloseStep(old(State()))
    {
      connection1.Close();
    }

    /** `GetConnection`: refresh first when expired, then return the current handle. */
    method GetConnection(dial: DialResult, now: Time) returns (conn: Option<Handle>, err: Option<Error>)
      requires Valid()
      modifies this, connection1
      ensures Valid()
      ensures !old(connection1.IsExpired(now)) ==>
                conn == old(connection1.connection) && err == None && State() == old(State())
      ensures old(connection1.IsExpired(now)) ==> conn == connection1.connection
      ensures Reply(State(), conn, err) == GetConnectionStep(maxConnectionAge, old(State()), dial, now)
    {
      err := None;
      if connection1.IsExpired(now) {
        err := Connect(dial, now);
        return connection1.Connection(), err;
      }
      return connection1.Connection(), err;
    }

    /** `TryReconnect`: dial only when the last connect is at least 15 s old. */
    method TryReconnect(dial: DialResult, now: Time) returns (conn: Option<Handle>, err: Option<Error>)
      requires Valid()
      modifies this, connection1
      ensures Valid()
      ensures !ReconnectAllowed(old(connection1.State()), now) ==>
                conn == old(connection1.connection) && err == None && State() == old(State())
      ensures conn == connection1.connection
      ensures Reply(State(), conn, err) == TryReconnectStep(maxConnectionAge, old(State()), dial, now)
    {
      err := None;
      if Since(now, connection1.lastConnection) >= MinConnectionAge {
        err := Connect(dial, now);
        if err.Some? {
          return connection1.Connection(), err;
        }
      }
      return connection1.Connection(), err;
    }

    /** `ShouldReconnect`: the Connection's expiry test. */
    function ShouldReconnect(now: Time): (r: bool)
      reads this, connection1
      ensures r == connection1.IsExpired(now)
      ensures (connection1.maxDuration > MinDuration || now >= connection1.lastConnection) ==>
                (r <==> now - connection1.lastConnection >= connection1.maxDuration)
    {
      connection1.IsExpired(now)
    }

    /** Time passes up to `now`; the due close goroutines run. */
    method Tick(now: Time)
      requires Valid()
      modifies connection1
      ensures Valid()
      ensures State() == TickStep(old(State()), now)
    {
      connection1.Tick(now);
    }
  }
}
