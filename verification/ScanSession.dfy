/** The reconnecting client (WebUI/src/hooks/useScanSocket.ts) around the
    snapshot cursor and the reorder buffer.  Safety is stated on a small
    protocol of sessions; the class below is the client, and each of its
    handlers takes a step of that protocol. */
module ScanSession {
  import opened Options
  import opened Events
  import opened ReorderBuffer

  // ----- The protocol -----

  datatype Session = Session(current: Snapshot, pending: map<nat, ScanEvent>)

  ghost predicate FrameStep(log: seq<ScanEvent>, a: Session, b: Session, e: ScanEvent) {
    var d := Deliver(a.current, a.pending, e);
    Genuine(log, a.current.scanId, e) && b == Session(d.snapshot, d.pending)
  }

  /** Nothing seen, the buffer dropped on disconnect, or one frame delivered (a refused one changes nothing). */
  ghost predicate SessionStep(log: seq<ScanEvent>, a: Session, b: Session) {
    || b == a
    || b == a.(pending := map[])
    || exists e :: FrameStep(log, a, b, e)
  }

  /** The session shows the logged events up to its cursor, applied once each in id order to "base". */
  ghost predicate Faithful(log: seq<ScanEvent>, base: Snapshot, a: Session) {
    && base.lastEventId <= a.current.lastEventId <= |log|
    && a.current == ReplayTo(base, log, a.current.lastEventId)
    && Window(a.current, a.pending) && FromLog(log, a.pending)
  }

  lemma StepKeepsFaithful(log: seq<ScanEvent>, base: Snapshot, a: Session, b: Session)
    requires DurableLog(log, base.scanId) && Faithful(log, base, a) && SessionStep(log, a, b)
    ensures Faithful(log, base, b) && a.current.lastEventId <= b.current.lastEventId
    ensures b.current.scanId == base.scanId
  {
    ReplayToCursor(base, log, a.current.lastEventId);
    if b != a && b != a.(pending := map[]) {
      var e :| FrameStep(log, a, b, e);
      DeliverKeepsWindow(a.current, a.pending, e);
      DeliverReplaysLog(log, a.current, a.pending, e);
      ReplayToSplit(base, log, a.current.lastEventId, b.current.lastEventId);
    }
  }

  ghost predicate IsRun(log: seq<ScanEvent>, base: Snapshot, run: seq<Session>) {
    && run != [] && run[0] == Session(base, map[])
    && forall i :: 0 < i < |run| ==> SessionStep(log, run[i - 1], run[i])
  }

  /** Over every run the snapshot refines the in-order fold of the durable log. */
  lemma {:induction false} RunIsFaithful(log: seq<ScanEvent>, base: Snapshot, run: seq<Session>, i: nat)
    requires DurableLog(log, base.scanId) && base.lastEventId <= |log| && IsRun(log, base, run) && i < |run|
    ensures Faithful(log, base, run[i])
    ensures run[i].current == Replay(base, log[base.lastEventId..run[i].current.lastEventId])
  {
    if i == 0 {
    } else {
      RunIsFaithful(log, base, run, i - 1);
      StepKeepsFaithful(log, base, run[i - 1], run[i]);
    }
    ReplayToIsReplay(base, log, run[i].current.lastEventId);
  }

  /** The cursor never goes back. */
  lemma {:induction false} RunCursorMonotone(log: seq<ScanEvent>, base: Snapshot, run: seq<Session>, i: nat, j: nat)
    requires DurableLog(log, base.scanId) && base.lastEventId <= |log| && IsRun(log, base, run) && i <= j < |run|
    ensures run[i].current.lastEventId <= run[j].current.lastEventId
  {
    if i == j {
    } else {
      RunCursorMonotone(log, base, run, i, j - 1);
      RunIsFaithful(log, base, run, j - 1);
      StepKeepsFaithful(log, base, run[j - 1], run[j]);
    }
  }

  lemma FaithfulCatchesUp(log: seq<ScanEvent>, base: Snapshot, a: Session)
    requires DurableLog(log, base.scanId) && Faithful(log, base, a)
    ensures DeliverAll(a.current, log[a.current.lastEventId..]) == Delivery(ReplayTo(base, log, |log|), map[], false)
  {
    var c := a.current;
    ReplayToCursor(base, log, c.lastEventId);
    InOrderReplay(log, c, log[c.lastEventId..]);
    ReplayToSplit(base, log, c.lastEventId, |log|);
  }

  /** Whatever happened before, dropping the buffer and replaying in order from the cursor
      shows everything logged: no event is lost or applied twice across a reconnect. */
  lemma ReconnectCatchesUp(log: seq<ScanEvent>, base: Snapshot, run: seq<Session>, i: nat)
    requires DurableLog(log, base.scanId) && base.lastEventId <= |log| && IsRun(log, base, run) && i < |run|
    ensures var c := run[i].current;
            c.lastEventId <= |log| &&
            DeliverAll(c, log[c.lastEventId..]) == Delivery(Replay(base, log[base.lastEventId..]), map[], false)
  {
    RunIsFaithful(log, base, run, i);
    FaithfulCatchesUp(log, base, run[i]);
    ReplayToIsReplay(base, log, |log|);
    assert log[base.lastEventId..|log|] == log[base.lastEventId..];
  }

  // ----- The client -----

  datatype ReadyState = Connecting | Open | Closing | Closed

  const STALE_MS: int := 45000

  function Power2(n: nat): nat {
    if n == 0 then 1 else 2 * Power2(n - 1)
  }

  /** Base reconnect delay in milliseconds; the random jitter is left out. */
  function Backoff(attempts: nat): (delay: nat)
    ensures delay == match attempts case 0 => 1000 case 1 => 2000 case 2 => 4000 case 3 => 8000 case 4 => 16000 case _ => 30000
  {
    var raw := 1000 * Power2(if attempts < 5 then attempts else 5);
    if raw < 30000 then raw else 30000
  }

  class ScanSocket {
    const scanId: string
    const buffer: Buffer
    ghost const log: seq<ScanEvent>
    ghost var base: Snapshot

    var current: Option<Snapshot>
    var socket: Option<nat>       // identity of the socket the handlers accept
    var sockets: nat              // sockets opened so far
    var ready: ReadyState         // of the current socket
    var retryArmed: bool
    var attempts: nat
    var lastSeen: int
    var disposed: bool

    ghost predicate Valid()
      reads this, buffer
    {
      && DurableLog(log, scanId)
      && (current.None? ==> socket.None? && !retryArmed && buffer.pending == map[])
      && (current.Some? ==> base.scanId == scanId && Faithful(log, base, View()))
      && (socket.Some? ==> socket.value < sockets)
      && (retryArmed || socket.None? ==> ready.Closed?)
      && (ready.Closed? || ready.Connecting? ==> buffer.pending == map[])
    }

    ghost function View(): Session
      reads this, buffer
      requires current.Some?
    {
      Session(current.value, buffer.pending)
    }

    constructor (scanId: string, ghost log: seq<ScanEvent>, ghost anything: Snapshot, now: int)
      requires DurableLog(log, scanId)
      ensures Valid() && fresh(buffer) && current.None? && !disposed
      ensures this.scanId == scanId && this.log == log
    {
      this.scanId := scanId;
      this.log := log;
      buffer := new Buffer();
      base := anything;
      current, socket, sockets, ready := None, None, 0, Closed;
      retryArmed, attempts, lastSeen, disposed := false, 0, now, false;
    }

    /** Arms the reconnect timer; each failed attempt waits longer. */
    method Schedule() returns (delay: nat)
      modifies this`retryArmed, this`attempts
      ensures disposed ==> retryArmed == old(retryArmed) && attempts == old(attempts)
      ensures !disposed ==> retryArmed && attempts == old(attempts) + 1 && delay == Backoff(old(attempts))
    {
      delay := 0;
      if disposed {
        return;
      }
      delay := Backoff(attempts);
      attempts := attempts + 1;
      retryArmed := true;
    }

    /** Opens a socket that asks for everything after the cursor. "opens" is whether the platform accepts the URL. */
    method Connect(opens: bool) returns (after: Option<nat>)
      requires Valid() && ready.Closed? && !retryArmed
      modifies this`socket, this`sockets, this`ready, this`retryArmed, this`attempts
      ensures Valid()
      ensures after.Some? <==> !disposed && current.Some? && opens
      ensures after.Some? ==> after.value == current.value.lastEventId && buffer.pending == map[]
      ensures after.Some? ==>
                && socket == Some(old(sockets)) && sockets == old(sockets) + 1 && ready.Connecting?
                && !retryArmed && attempts == old(attempts)
      ensures after.None? ==> socket == old(socket) && sockets == old(sockets) && ready == old(ready)
      ensures after.None? ==> (retryArmed <==> !disposed && current.Some?)
      ensures attempts == old(attempts) + if retryArmed then 1 else 0
    {
      if disposed || current.None? {
        return None;
      }
      if opens {
        after := Some(current.value.lastEventId);
        socket, sockets, ready := Some(sockets), sockets + 1, Connecting;
      } else {
        var _ := Schedule();
        after := None;
      }
    }

    /** The snapshot fetch succeeded. The server never reports a cursor past the end of its log. */
    method SnapshotLoaded(data: Snapshot, opens: bool) returns (after: Option<nat>)
      requires Valid() && current.None? && data.scanId == scanId && data.lastEventId <= |log|
      modifies this`current, this`base, this`socket, this`sockets, this`ready, this`retryArmed, this`attempts
      ensures Valid()
      ensures disposed ==> current.None? && after.None? && socket == old(socket) && retryArmed == old(retryArmed)
      ensures !disposed ==> base == data && current == Some(data) && View() == Session(base, map[])
      ensures after == if !disposed && opens then Some(data.lastEventId) else None
      ensures after.Some? ==> socket == Some(old(sockets)) && ready.Connecting? && !retryArmed
      ensures !disposed && !opens ==> retryArmed && attempts == old(attempts) + 1
    {
      if disposed {
        return None;
      }
      current := Some(data);
      base := data;
      after := Connect(opens);
    }

    method SocketOpened(ws: nat, now: int)
      requires Valid() && (socket == Some(ws) ==> ready.Connecting?)
      modifies this`lastSeen, this`ready
      ensures Valid()
      ensures lastSeen == now && ready == if socket == Some(ws) then Open else old(ready)
    {
      lastSeen := now;
      if socket == Some(ws) {
        ready := Open;
      }
    }

    /** A frame arrives; None is one the parser rejects. Sockets deliver frames only while open.
        A refused frame closes the socket and leaves snapshot and buffer as they were. */
    method Message(ws: nat, frame: Option<ScanEvent>, now: int) returns (error: Option<string>)
      requires Valid() && (socket == Some(ws) ==> ready.Open?)
      requires frame.Some? ==> frame.value.scanId == scanId && Genuine(log, scanId, frame.value)
      modifies this`current, this`ready, this`lastSeen, this`attempts, buffer
      ensures Valid() && current.Some? == old(current).Some?
      ensures current.Some? ==> SessionStep(log, old(View()), View())
      ensures current.Some? ==> old(current.value.lastEventId) <= current.value.lastEventId
      // An unreadable frame is reported and otherwise ignored.
      ensures frame.None? ==> (error.Some? <==> !disposed && socket == Some(ws) && current.Some?)
      ensures var heard := !disposed && socket == Some(ws) && current.Some? && frame.Some?;
              && (heard ==>
                    var d := old(Deliver(current.value, buffer.pending, frame.value));
                    && View() == Session(d.snapshot, d.pending)
                    && ready == (if d.threw then Closing else Open) && error.Some? == d.threw
                    && attempts == 0 && lastSeen == now)
              && (!heard ==>
                    && current == old(current) && buffer.pending == old(buffer.pending) && ready == old(ready)
                    && attempts == old(attempts) && lastSeen == old(lastSeen))
    {
      error := None;
      if disposed || socket != Some(ws) || current.None? {
        return;
      }
      if frame.None? {
        return Some("An invalid or unsupported event was ignored.");
      }
      lastSeen, attempts := now, 0;
      var was := current.value;
      ghost var before := View();
      ReplayToCursor(base, log, was.lastEventId);
      var r := buffer.ApplyOrderedEvent(was, frame.value);
      match r {
        case Ok(next) => current := Some(next);
        case Err(message) =>
          error := Some(message);
          ready := Closing;
      }
      assert FrameStep(log, before, View(), frame.value);
      StepKeepsFaithful(log, base, before, View());
    }

    /** The close event, which a socket fires once. Only the current socket's one clears the buffer and retries. */
    method SocketClosed(ws: nat)
      requires Valid() && (socket == Some(ws) ==> !ready.Closed?)
      modifies this`ready, this`retryArmed, this`attempts, buffer
      ensures Valid()
      ensures current.Some? ==> SessionStep(log, old(View()), View())
      ensures socket == Some(ws) ==> buffer.pending == map[] && (retryArmed <==> !disposed)
      ensures socket != Some(ws) ==> buffer.pending == old(buffer.pending) && retryArmed == old(retryArmed)
      ensures ready == if socket == Some(ws) then Closed else old(ready)
      ensures attempts == old(attempts) + if socket == Some(ws) && !disposed then 1 else 0
    {
      if socket == Some(ws) {
        buffer.Clear();
        ready := Closed;
        var _ := Schedule();
      }
    }

    /** The reconnect timer fires: a socket is opened that asks for everything after the cursor, or the timer is armed again. */
    method RetryFires(opens: bool) returns (after: Option<nat>)
      requires Valid() && retryArmed
      modifies this`socket, this`sockets, this`ready, this`retryArmed, this`attempts
      ensures Valid()
      ensures after.Some? <==> !disposed && opens
      ensures after.Some? ==> current.Some? && after.value == current.value.lastEventId && buffer.pending == map[]
      ensures after.Some? ==>
                && socket == Some(old(sockets)) && sockets == old(sockets) + 1 && ready.Connecting?
                && !retryArmed && attempts == old(attempts)
      ensures after.None? && !disposed ==> retryArmed && attempts == old(attempts) + 1 && socket == old(socket)
      ensures disposed ==> !retryArmed && socket == old(socket)
    {
      retryArmed := false;
      after := Connect(opens);
    }

    /** Every ten seconds: an open socket that is silent, or still waits for a missing event, is closed. */
    method Watchdog(now: int)
      requires Valid()
      modifies this`ready
      ensures Valid()
      ensures ready == if old(ready).Open? && (now - lastSeen > 45000 || buffer.pending != map[])
                       then Closing else old(ready)
    {
      if ready.Open? && (now - lastSeen > STALE_MS || |buffer.pending| > 0) {
        ready := Closing;
      }
    }

    /** Leaving the page: the timers stop and the socket, its handlers detached, is closed. */
    method Dispose()
      requires Valid()
      modifies this`disposed, this`retryArmed, this`ready
      ensures Valid() && disposed && !retryArmed
      ensures ready == if old(ready).Closed? then Closed else Closing
    {
      disposed, retryArmed := true, false;
      if !ready.Closed? {
        ready := Closing;
      }
    }
  }
}
