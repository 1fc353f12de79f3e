/**
 * The connection slot of connection.go: at most one current client
 * connection, the time it was installed and its maximum age. Replacing the
 * connection hands the old one to a goroutine that closes it after a grace
 * period; here that goroutine is an entry of a pending-close queue, and
 * `Tick` is the passage of time that lets the due entries fire.
 */
module Connections {
  import opened Wrappers
  import opened Clock
  import opened Grpc

  /** How long a superseded connection stays open (connection.go:10). */
  const GracePeriod: Duration := 10 * Second

  /** A sleeping close goroutine: it closes `handle` once `due` is reached. */
  datatype PendingClose = PendingClose(handle: Handle, due: Time)

  /**
   * The observable state of a Connection: its fields, the close goroutines
   * still sleeping, and the handles it has closed so far, in order.
   */
  datatype Slot = Slot(
    connection: Option<Handle>,
    lastConnection: Time,
    maxDuration: Duration,
    pending: seq<PendingClose>,
    closed: seq<Handle>)

  /** `NewConnection`: no handle, zero timestamp, zero maximum age. */
  function NewSlot(): Slot {
    Slot(None, ZeroTime, 0, [], [])
  }

  /** `IsExpired` at time `now`. */
  predicate Expired(s: Slot, now: Time) {
    Since(now, s.lastConnection) >= s.maxDuration
  }

  /** The close goroutine `SetConnection` starts, if the slot held a handle. */
  function Superseded(s: Slot, now: Time): seq<PendingClose> {
    if s.connection.Some? then [PendingClose(s.connection.value, now + GracePeriod)] else []
  }

  /** The slot after `SetConnection(h, d)` at time `now`. */
  function Swapped(s: Slot, h: Option<Handle>, d: Duration, now: Time): Slot {
    s.(connection := h, lastConnection := now, maxDuration := d,
       pending := s.pending + Superseded(s, now))
  }

  /** The slot after `Close`, which closes the current handle at once. */
  function TornDown(s: Slot): Slot
    requires s.connection.Some?
  {
    s.(connection := None, closed := s.closed + [s.connection.value])
  }

  /** The handles of a pending-close queue, in queue order. */
  function Handles(p: seq<PendingClose>): seq<Handle> {
    seq(|p|, i requires 0 <= i < |p| => p[i].handle)
  }

  /** The handles whose close goroutine has woken up by `now`, in queue order. */
  function DueHandles(p: seq<PendingClose>, now: Time): seq<Handle> {
    if p == [] then []
    else DueHandles(p[..|p| - 1], now) + (if p[|p| - 1].due <= now then [p[|p| - 1].handle] else [])
  }

  /** The goroutines still sleeping at `now`, in queue order. */
  function NotDue(p: seq<PendingClose>, now: Time): seq<PendingClose> {
    if p == [] then []
    else NotDue(p[..|p| - 1], now) + (if p[|p| - 1].due <= now then [] else [p[|p| - 1]])
  }

  /** The slot once every close goroutine due by `now` has run. */
  function Drained(s: Slot, now: Time): Slot {
    s.(pending := NotDue(s.pending, now), closed := s.closed + DueHandles(s.pending, now))
  }

  /** A new Connection reports expired at every instant (connection.go:21-24, 67-72). */
  lemma NewSlotExpired(now: Time)
    ensures Expired(NewSlot(), now)
    ensures NewSlot().connection == None && NewSlot().maxDuration == 0
  {
    SinceZeroTime(now);
  }

  /** `IsExpired` is the age test on the exact elapsed time. */
  lemma ExpiredMeansAged(s: Slot, now: Time)
    requires s.maxDuration > MinDuration || now >= s.lastConnection
    ensures Expired(s, now) <==> now - s.lastConnection >= s.maxDuration
  {
    SinceAtLeast(now, s.lastConnection, s.maxDuration);
  }

  /**
   * Right after a swap with a positive maximum age the slot is fresh, and it
   * is expired at every instant at least that age later.
   */
  lemma SwappedExpiry(s: Slot, h: Option<Handle>, d: Duration, now: Time, later: Time)
    requires d > 0
    ensures !Expired(Swapped(s, h, d, now), now)
    ensures later >= now + d ==> Expired(Swapped(s, h, d, now), later)
    ensures now <= later < now + d ==> !Expired(Swapped(s, h, d, now), later)
  {
    ExpiredMeansAged(Swapped(s, h, d, now), now);
    ExpiredMeansAged(Swapped(s, h, d, now), later);
  }

  /**
   * A swap installs the new handle, closes nothing synchronously, and
   * schedules exactly the handle it replaced, if any, for the end of the
   * grace period.
   */
  lemma SwappedSchedulesOldHandle(s: Slot, h: Option<Handle>, d: Duration, now: Time)
    ensures var s' := Swapped(s, h, d, now);
      && s'.connection == h && s'.lastConnection == now && s'.maxDuration == d
      && s'.closed == s.closed
      && (s.connection.Some? ==>
            s'.pending == s.pending + [PendingClose(s.connection.value, now + GracePeriod)])
      && (s.connection.None? ==> s'.pending == s.pending)
  {
  }

  /** A handle is due by `now` exactly when some entry for it has woken up. */
  lemma {:induction false} DueHandlesMembers(p: seq<PendingClose>, now: Time, h: Handle)
    ensures h in DueHandles(p, now) <==> exists i :: 0 <= i < |p| && p[i].handle == h && p[i].due <= now
  {
    if p != [] {
      var q := p[..|p| - 1];
      DueHandlesMembers(q, now, h);
      if h in DueHandles(p, now) && h !in DueHandles(q, now) {
        assert p[|p| - 1].handle == h && p[|p| - 1].due <= now;
      }
      if exists i :: 0 <= i < |p| && p[i].handle == h && p[i].due <= now {
        var i :| 0 <= i < |p| && p[i].handle == h && p[i].due <= now;
        if i < |q| {
          assert q[i] == p[i];
        }
      }
    }
  }

  /** An entry is still pending at `now` exactly when its due time lies after `now`. */
  lemma {:induction false} NotDueMembers(p: seq<PendingClose>, now: Time, e: PendingClose)
    ensures e in NotDue(p, now) <==> e in p && now < e.due
  {
    if p != [] {
      var q := p[..|p| - 1];
      NotDueMembers(q, now, e);
      assert p == q + [p[|p| - 1]];
    }
  }

  /** Draining moves entries from the queue to the closed log: no handle is lost or duplicated. */
  lemma {:induction false} DrainSplits(p: seq<PendingClose>, now: Time)
    ensures multiset(DueHandles(p, now)) + multiset(Handles(NotDue(p, now))) == multiset(Handles(p))
  {
    if p != [] {
      var q := p[..|p| - 1];
      DrainSplits(q, now);
      var last := p[|p| - 1];
      assert Handles(p) == Handles(q) + [last.handle];
      if last.due <= now {
        assert NotDue(p, now) == NotDue(q, now);
      } else {
        assert Handles(NotDue(p, now)) == Handles(NotDue(q, now)) + [last.handle];
      }
    }
  }

  /** Once every due time has passed, the queue is empty and every handle in it is closed. */
  lemma {:induction false} DrainedEventually(p: seq<PendingClose>, now: Time)
    requires forall i :: 0 <= i < |p| ==> p[i].due <= now
    ensures NotDue(p, now) == []
    ensures DueHandles(p, now) == Handles(p)
  {
    if p != [] {
      var q := p[..|p| - 1];
      DrainedEventually(q, now);
      assert Handles(p) == Handles(q) + [p[|p| - 1].handle];
    }
  }

  /** Draining a queue of one entry. */
  lemma DrainOne(e: PendingClose, now: Time)
    ensures DueHandles([e], now) == if e.due <= now then [e.handle] else []
    ensures NotDue([e], now) == if e.due <= now then [] else [e]
  {
    assert [e][..0] == [];
  }

  /**
   * The grace-period scenario of connection_manager_test.go:36-81: installing
   * `h1` and then `h2` at `t2` leaves `h1` open strictly before `t2` plus the
   * grace period and closes it exactly once from then on.
   */
  lemma GracePeriodScenario(h1: Handle, h2: Handle, d: Duration, t1: Time, t2: Time, t: Time)
    ensures var s := Swapped(Swapped(NewSlot(), Some(h1), d, t1), Some(h2), d, t2);
      && s.connection == Some(h2)
      && (t < t2 + GracePeriod ==> Drained(s, t).closed == [] && Drained(s, t).pending == s.pending)
      && (t >= t2 + GracePeriod ==> Drained(s, t).closed == [h1] && Drained(s, t).pending == [])
  {
    var s := Swapped(Swapped(NewSlot(), Some(h1), d, t1), Some(h2), d, t2);
    assert s.pending == [PendingClose(h1, t2 + GracePeriod)];
    DrainOne(PendingClose(h1, t2 + GracePeriod), t);
  }

  /**
   * connection.go's `Connection` struct, with the close goroutines and the
   * closes it has performed made explicit as `pending` and `closed`.
   */
  class Connection {
    const id: string
    var connection: Option<Handle>
    var lastConnection: Time
    var maxDuration: Duration
    var pending: seq<PendingClose>
    var closed: seq<Handle>

    function State(): Slot
      reads this
    {
      Slot(connection, lastConnection, maxDuration, pending, closed)
    }

    /** `NewConnection(id)`. */
    constructor (id: string)
      ensures this.id == id
      ensures State() == NewSlot()
    {
      this.id := id;
      connection := None;
      lastConnection := ZeroTime;
      maxDuration := 0;
      pending := [];
      closed := [];
    }

    /** The current handle (nil when none is installed). */
    function Connection(): Option<Handle>
      reads this
    {
      connection
    }

    /** Whether the current handle is at least `maxDuration` old at `now`. */
    function IsExpired(now: Time): (r: bool)
      reads this
      ensures (maxDuration > MinDuration || now >= lastConnection) ==>
                (r <==> now - lastConnection >= maxDuration)
      ensures lastConnection == ZeroTime && maxDuration <= 0 ==> r
    {
      if maxDuration > MinDuration || now >= lastConnection then
        ExpiredMeansAged(State(), now);
        Expired(State(), now)
      else
        Expired(State(), now)
    }

    /**
     * Install `conn` at time `now`; the previous handle, if any, is not
     * closed here but scheduled for closing after the grace period.
     */
    method SetConnection(conn: Option<Handle>, maxDuration: Duration, now: Time)
      modifies this
      ensures connection == conn
      ensures lastConnection == now && this.maxDuration == maxDuration
      ensures closed == old(closed)
      ensures old(connection).Some? ==>
                pending == old(pending) + [PendingClose(old(connection).value, now + GracePeriod)]
      ensures old(connection).None? ==> pending == old(pending)
      ensures State() == Swapped(old(State()), conn, maxDuration, now)
    {
      var oldConn := connection;
      connection := conn;
      lastConnection := now;
      this.maxDuration := maxDuration;
      if oldConn.Some? {
        pending := pending + [PendingClose(oldConn.value, now + GracePeriod)];
      }
    }

    /**
     * Close the current handle synchronously and clear the slot. The source
     * calls `Close` on the handle unconditionally, so a handle must be set.
     */
    method Close()
      requires connection.Some?
      modifies this
      ensures connection == None
      ensures closed == old(closed) + [old(connection).value]
      ensures lastConnection == old(lastConnection) && maxDuration == old(maxDuration)
      ensures pending == old(pending)
      ensures State() == TornDown(old(State()))
    {
      closed := closed + [connection.value];
      connection := None;
    }

    /**
     * Let time reach `now`: every close goroutine whose sleep has ended closes
     * its handle, in queue order; the others keep sleeping. This is the Go
     * runtime's part, not a function of the source.
     */
    method Tick(now: Time)
      modifies this
      ensures connection == old(connection)
      ensures lastConnection == old(lastConnection) && maxDuration == old(maxDuration)
      ensures closed == old(closed) + DueHandles(old(pending), now)
      ensures pending == NotDue(old(pending), now)
      ensures State() == Drained(old(State()), now)
    {
      closed := closed + DueHandles(pending, now);
      pending := NotDue(pending, now);
    }
  }
}
