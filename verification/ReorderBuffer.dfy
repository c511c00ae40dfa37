/** Ordered delivery (applyOrderedEvent in WebUI/src/lib/events.ts): durable
    events may arrive early, twice or not at all; the buffer holds what is early
    and applies each contiguous run once, in id order. */
module ReorderBuffer {
  import opened Options
  import opened Events

  const WINDOW: nat := 128

  // ----- What one delivery means -----

  ghost predicate Covers(ids: set<nat>, last: nat, high: nat) {
    last <= high && forall k :: last < k <= high ==> k in ids
  }

  ghost function IdsAbove(ids: set<nat>, last: nat): set<nat> {
    set k | k in ids && k > last
  }

  /** The last id of the contiguous run that starts right after "last". */
  ghost function HighWater(last: nat, ids: set<nat>): (h: nat)
    ensures Covers(ids, last, h) && h + 1 !in ids
    decreases |IdsAbove(ids, last)|
  {
    if last + 1 in ids then
      assert IdsAbove(ids, last) == IdsAbove(ids, last + 1) + {last + 1};
      HighWater(last + 1, ids)
    else last
  }

  lemma HighWaterUnique(last: nat, ids: set<nat>, h: nat)
    requires Covers(ids, last, h) && h + 1 !in ids
    ensures h == HighWater(last, ids)
  {
    var w := HighWater(last, ids);
    assert h < w ==> h + 1 in ids;
    assert w < h ==> w + 1 in ids;
  }

  /** Every entry sits under its own id and can take effect on scan "scanId". */
  ghost predicate Keyed(scanId: string, pending: map<nat, ScanEvent>) {
    forall k :: k in pending ==> pending[k].eventId == k && Durable(scanId, pending[k])
  }

  /** Buffered events last+1 .. high applied in id order. */
  ghost function ReplayRun(s: Snapshot, pending: map<nat, ScanEvent>, high: nat): Snapshot
    requires Covers(pending.Keys, s.lastEventId, high)
  {
    if high == s.lastEventId then s else ApplyEvent(ReplayRun(s, pending, high - 1), pending[high])
  }

  lemma {:induction false} ReplayRunCursor(s: Snapshot, pending: map<nat, ScanEvent>, high: nat)
    requires Covers(pending.Keys, s.lastEventId, high) && Keyed(s.scanId, pending)
    ensures ReplayRun(s, pending, high).lastEventId == high
    ensures ReplayRun(s, pending, high).scanId == s.scanId
  {
    if high == s.lastEventId {
    } else {
      ReplayRunCursor(s, pending, high - 1);
      assert high in pending;
    }
  }

  ghost function Above(pending: map<nat, ScanEvent>, high: nat): map<nat, ScanEvent> {
    map k | k in pending && k > high :: pending[k]
  }

  /** Every buffered event sits under its own id, from two to WINDOW past the cursor. */
  ghost predicate Window(s: Snapshot, pending: map<nat, ScanEvent>) {
    && Keyed(s.scanId, pending)
    && forall k :: k in pending ==> s.lastEventId + 2 <= k <= s.lastEventId + WINDOW
  }

  datatype Delivery = Delivery(snapshot: Snapshot, pending: map<nat, ScanEvent>, threw: bool)

  /** The whole effect of one call: nothing, a refusal that changes nothing,
      or the in-order replay of the run the new event completes. */
  ghost function Deliver(s: Snapshot, pending: map<nat, ScanEvent>, e: ScanEvent): Delivery {
    if Ignored(s, e) then Delivery(s, pending, false)
    else if e.eventId > s.lastEventId + WINDOW then Delivery(s, pending, true)
    else
      var p := pending[e.eventId := e];
      var high := HighWater(s.lastEventId, p.Keys);
      Delivery(ReplayRun(s, p, high), Above(p, high), false)
  }

  /** A delivery keeps the window and never moves the cursor back; a refusal changes nothing. */
  lemma DeliverKeepsWindow(s: Snapshot, pending: map<nat, ScanEvent>, e: ScanEvent)
    requires Window(s, pending)
    ensures var d := Deliver(s, pending, e);
            && Window(d.snapshot, d.pending)
            && s.lastEventId <= d.snapshot.lastEventId && d.snapshot.scanId == s.scanId
            && (d.threw ==> d.snapshot == s && d.pending == pending)
            && (!Ignored(s, e) && !d.threw ==>
                  && d.snapshot.lastEventId == HighWater(s.lastEventId, pending.Keys + {e.eventId})
                  && d.pending.Keys == IdsAbove(pending.Keys + {e.eventId}, d.snapshot.lastEventId))
  {
    if !Ignored(s, e) && e.eventId <= s.lastEventId + WINDOW {
      var p := pending[e.eventId := e];
      assert p.Keys == pending.Keys + {e.eventId};
      ReplayRunCursor(s, p, HighWater(s.lastEventId, p.Keys));
    }
  }

  /** The drain loop's state: "next" has replayed the run so far, "pending" holds the rest of "p". */
  ghost predicate Draining(s: Snapshot, p: map<nat, ScanEvent>, next: Snapshot, pending: map<nat, ScanEvent>) {
    && Covers(p.Keys, s.lastEventId, next.lastEventId)
    && next == ReplayRun(s, p, next.lastEventId)
    && pending == Above(p, next.lastEventId)
  }

  lemma DrainStep(s: Snapshot, p: map<nat, ScanEvent>, next: Snapshot, pending: map<nat, ScanEvent>)
    requires Keyed(s.scanId, p) && Draining(s, p, next, pending) && next.lastEventId + 1 in pending
    ensures var e := pending[next.lastEventId + 1];
            e.eventId == next.lastEventId + 1 && Draining(s, p, ApplyEvent(next, e), pending - {e.eventId})
  {
    var k := next.lastEventId + 1;
    assert k in p && p[k] == pending[k];
    ReplayRunCursor(s, p, k);
    assert Above(p, k) == pending - {k};
  }

  // ----- The mutable buffer -----

  /** The Map shared by all deliveries of one connection. */
  class Buffer {
    var pending: map<nat, ScanEvent>

    constructor ()
      ensures pending == map[]
    {
      pending := map[];
    }

    method Clear()
      modifies this
      ensures pending == map[]
    {
      pending := map[];
    }

    method ApplyOrderedEvent(snapshot: Snapshot, event: ScanEvent) returns (r: Result<Snapshot>)
      requires Window(snapshot, pending)
      modifies this
      ensures var d := Deliver(snapshot, old(pending), event);
              pending == d.pending && r.Err? == d.threw && (r.Ok? ==> r.value == d.snapshot)
      ensures Window(if r.Ok? then r.value else snapshot, pending)
    {
      DeliverKeepsWindow(snapshot, pending, event);
      if Ignored(snapshot, event) {
        return Ok(snapshot);
      }
      if event.eventId > snapshot.lastEventId + WINDOW {
        return Err("Event gap exceeds replay buffer. Refresh the snapshot.");
      }
      pending := pending[event.eventId := event];
      ghost var p := pending;
      var next := snapshot;
      while next.lastEventId + 1 in pending
        invariant Draining(snapshot, p, next, pending)
        decreases pending.Keys
      {
        DrainStep(snapshot, p, next, pending);
        var queued := pending[next.lastEventId + 1];
        assert queued.eventId in pending.Keys;
        pending := pending - {queued.eventId};
        next := ApplyEvent(next, queued);
      }
      HighWaterUnique(snapshot.lastEventId, p.Keys, next.lastEventId);
      return Ok(next);
    }
  }

  // ----- Against the durable log -----

  /** The server's events of one scan: numbered 1, 2, 3, ... without gaps (src/aidast/web/projection.py:773-796). */
  ghost predicate DurableLog(log: seq<ScanEvent>, scanId: string) {
    forall i :: 0 <= i < |log| ==>
      log[i].eventId == i + 1 && log[i].scanId == scanId && !log[i].payload.Heartbeat?
  }

  /** What may arrive: heartbeats, frames of other scans, and true copies of logged events. */
  ghost predicate Genuine(log: seq<ScanEvent>, scanId: string, e: ScanEvent) {
    Durable(scanId, e) ==> 1 <= e.eventId <= |log| && log[e.eventId - 1] == e
  }

  ghost predicate FromLog(log: seq<ScanEvent>, pending: map<nat, ScanEvent>) {
    forall k :: k in pending ==> 1 <= k <= |log| && pending[k] == log[k - 1]
  }

  /** The simple meaning of the stream: logged events up to id "high" applied once each, in id order. */
  ghost function ReplayTo(s: Snapshot, log: seq<ScanEvent>, high: nat): Snapshot
    requires high <= |log|
  {
    if high <= s.lastEventId then s else ApplyEvent(ReplayTo(s, log, high - 1), log[high - 1])
  }

  /** It is the fold of the corresponding stretch of the log. */
  lemma {:induction false} ReplayToIsReplay(s: Snapshot, log: seq<ScanEvent>, high: nat)
    requires s.lastEventId <= high <= |log|
    ensures ReplayTo(s, log, high) == Replay(s, log[s.lastEventId..high])
  {
    var es := log[s.lastEventId..high];
    if high == s.lastEventId {
    } else {
      ReplayToIsReplay(s, log, high - 1);
      assert es[..|es| - 1] == log[s.lastEventId..high - 1];
    }
  }

  lemma {:induction false} ReplayToCursor(s: Snapshot, log: seq<ScanEvent>, high: nat)
    requires DurableLog(log, s.scanId) && s.lastEventId <= high <= |log|
    ensures ReplayTo(s, log, high).lastEventId == high && ReplayTo(s, log, high).scanId == s.scanId
  {
    if high == s.lastEventId {
    } else {
      ReplayToCursor(s, log, high - 1);
    }
  }

  lemma {:induction false} ReplayToSplit(s: Snapshot, log: seq<ScanEvent>, mid: nat, high: nat)
    requires DurableLog(log, s.scanId) && s.lastEventId <= mid <= high <= |log|
    ensures ReplayTo(ReplayTo(s, log, mid), log, high) == ReplayTo(s, log, high)
  {
    ReplayToCursor(s, log, mid);
    if high == mid {
    } else {
      ReplayToSplit(s, log, mid, high - 1);
    }
  }

  lemma {:induction false} RunIsReplayTo(log: seq<ScanEvent>, s: Snapshot, p: map<nat, ScanEvent>, high: nat)
    requires FromLog(log, p) && Covers(p.Keys, s.lastEventId, high) && s.lastEventId <= |log|
    ensures high <= |log| && ReplayRun(s, p, high) == ReplayTo(s, log, high)
  {
    if high == s.lastEventId {
    } else {
      assert high in p;
      RunIsReplayTo(log, s, p, high - 1);
    }
  }

  /** One delivery replays the log from the old cursor to the new one, each event once. */
  lemma DeliverReplaysLog(log: seq<ScanEvent>, s: Snapshot, pending: map<nat, ScanEvent>, e: ScanEvent)
    requires DurableLog(log, s.scanId) && s.lastEventId <= |log|
    requires Window(s, pending) && FromLog(log, pending) && Genuine(log, s.scanId, e)
    ensures var d := Deliver(s, pending, e);
            && d.snapshot.lastEventId <= |log| && FromLog(log, d.pending)
            && d.snapshot == ReplayTo(s, log, d.snapshot.lastEventId)
  {
    if !Ignored(s, e) && e.eventId <= s.lastEventId + WINDOW {
      var p := pending[e.eventId := e];
      var high := HighWater(s.lastEventId, p.Keys);
      RunIsReplayTo(log, s, p, high);
      ReplayToCursor(s, log, high);
    }
  }

  /** A connection's frames in arrival order; the first refusal ends it. */
  ghost function DeliverAll(s: Snapshot, frames: seq<ScanEvent>): Delivery {
    if frames == [] then Delivery(s, map[], false) else
    var d := DeliverAll(s, frames[..|frames| - 1]);
    if d.threw then d else Deliver(d.snapshot, d.pending, frames[|frames| - 1])
  }

  ghost function DeliveredIds(scanId: string, frames: seq<ScanEvent>): set<nat> {
    set e | e in frames && Durable(scanId, e) :: e.eventId
  }

  lemma DeliveredIdsOfLonger(scanId: string, frames: seq<ScanEvent>)
    requires frames != []
    ensures var k := |frames| - 1;
            DeliveredIds(scanId, frames) ==
              DeliveredIds(scanId, frames[..k]) + (if Durable(scanId, frames[k]) then {frames[k].eventId} else {})
  {
    assert frames == frames[..|frames| - 1] + [frames[|frames| - 1]];
  }

  ghost predicate AllGenuine(log: seq<ScanEvent>, scanId: string, frames: seq<ScanEvent>) {
    forall i :: 0 <= i < |frames| ==> Genuine(log, scanId, frames[i])
  }

  /** The state the delivered ids alone determine: the longest contiguous run is replayed,
      exactly the ids above it wait. */
  ghost predicate Settled(log: seq<ScanEvent>, s: Snapshot, ids: set<nat>, d: Delivery) {
    var high := HighWater(s.lastEventId, ids);
    && high <= |log| && d.snapshot == ReplayTo(s, log, high)
    && d.pending.Keys == IdsAbove(ids, high) && FromLog(log, d.pending)
  }

  /** Confluence: unless a call throws, the state depends only on which ids arrived. */
  lemma {:induction false} Confluence(log: seq<ScanEvent>, s: Snapshot, frames: seq<ScanEvent>)
    requires DurableLog(log, s.scanId) && s.lastEventId <= |log| && AllGenuine(log, s.scanId, frames)
    requires !DeliverAll(s, frames).threw
    ensures Settled(log, s, DeliveredIds(s.scanId, frames), DeliverAll(s, frames))
    ensures Window(DeliverAll(s, frames).snapshot, DeliverAll(s, frames).pending)
  {
    if frames == [] {
    } else {
      var k := |frames| - 1;
      Confluence(log, s, frames[..k]);
      DeliveredIdsOfLonger(s.scanId, frames);
      var d, ids := DeliverAll(s, frames[..k]), DeliveredIds(s.scanId, frames[..k]);
      SettledStep(log, s, ids, d, frames[k]);
    }
  }

  lemma SettledStep(log: seq<ScanEvent>, s: Snapshot, ids: set<nat>, d: Delivery, e: ScanEvent)
    requires DurableLog(log, s.scanId) && s.lastEventId <= |log| && Genuine(log, s.scanId, e)
    requires Settled(log, s, ids, d) && Window(d.snapshot, d.pending)
    requires !Deliver(d.snapshot, d.pending, e).threw
    ensures var ids' := ids + if Durable(s.scanId, e) then {e.eventId} else {};
            Settled(log, s, ids', Deliver(d.snapshot, d.pending, e))
    ensures var d' := Deliver(d.snapshot, d.pending, e); Window(d'.snapshot, d'.pending)
  {
    var high := HighWater(s.lastEventId, ids);
    var ids' := ids + if Durable(s.scanId, e) then {e.eventId} else {};
    ReplayToCursor(s, log, high);
    DeliverKeepsWindow(d.snapshot, d.pending, e);
    if Ignored(d.snapshot, e) {
      HighWaterUnique(s.lastEventId, ids', high);
      assert IdsAbove(ids', high) == IdsAbove(ids, high);
    } else {
      DeliverReplaysLog(log, d.snapshot, d.pending, e);
      var high' := Deliver(d.snapshot, d.pending, e).snapshot.lastEventId;
      ReplayToSplit(s, log, high, high');
      RunOfUnion(s.lastEventId, ids, e.eventId);
    }
  }

  /** Continuing a run from its high-water mark is running over all ids at once. */
  lemma RunOfUnion(last: nat, ids: set<nat>, id: nat)
    ensures var high := HighWater(last, ids);
            var near := IdsAbove(ids, high) + {id};
            id > high ==>
              && HighWater(last, ids + {id}) == HighWater(high, near)
              && IdsAbove(ids + {id}, HighWater(high, near)) == IdsAbove(near, HighWater(high, near))
  {
    var high := HighWater(last, ids);
    var near := IdsAbove(ids, high) + {id};
    if id > high {
      var top := HighWater(high, near);
      HighWaterUnique(last, ids + {id}, top);
      assert IdsAbove(ids + {id}, top) == IdsAbove(near, top);
    }
  }

  lemma SettledUnique(log: seq<ScanEvent>, s: Snapshot, ids: set<nat>, d: Delivery, d': Delivery)
    requires Settled(log, s, ids, d) && Settled(log, s, ids, d') && d.threw == d'.threw
    ensures d == d'
  {
    assert d.pending.Keys == d'.pending.Keys;
    assert forall k :: k in d.pending ==> k in d'.pending && d.pending[k] == d'.pending[k];
  }

  /** Arrival order and repetition do not matter. */
  lemma ArrivalOrderIrrelevant(log: seq<ScanEvent>, s: Snapshot, a: seq<ScanEvent>, b: seq<ScanEvent>)
    requires DurableLog(log, s.scanId) && s.lastEventId <= |log|
    requires AllGenuine(log, s.scanId, a) && AllGenuine(log, s.scanId, b)
    requires DeliveredIds(s.scanId, a) == DeliveredIds(s.scanId, b)
    requires !DeliverAll(s, a).threw && !DeliverAll(s, b).threw
    ensures DeliverAll(s, a) == DeliverAll(s, b)
  {
    Confluence(log, s, a);
    Confluence(log, s, b);
    SettledUnique(log, s, DeliveredIds(s.scanId, a), DeliverAll(s, a), DeliverAll(s, b));
  }

  /** Durable frame "n" lies more than WINDOW past the contiguous run of the frames before it. */
  ghost predicate TooFar(s: Snapshot, frames: seq<ScanEvent>, n: nat)
    requires n < |frames|
  {
    && Durable(s.scanId, frames[n])
    && frames[n].eventId > HighWater(s.lastEventId, DeliveredIds(s.scanId, frames[..n])) + WINDOW
  }

  /** A call throws exactly when some frame is too far ahead of those before it. */
  lemma {:induction false} ThrowsExactlyWhen(log: seq<ScanEvent>, s: Snapshot, frames: seq<ScanEvent>)
    requires DurableLog(log, s.scanId) && s.lastEventId <= |log| && AllGenuine(log, s.scanId, frames)
    ensures DeliverAll(s, frames).threw <==> exists n :: 0 <= n < |frames| && TooFar(s, frames, n)
  {
    if frames == [] {
    } else {
      var k := |frames| - 1;
      var init := frames[..k];
      ThrowsExactlyWhen(log, s, init);
      assert forall n :: 0 <= n < k ==> init[..n] == frames[..n];
      assert forall n :: 0 <= n < k ==> (TooFar(s, init, n) <==> TooFar(s, frames, n));
      if !DeliverAll(s, init).threw {
        Confluence(log, s, init);
        ReplayToCursor(s, log, HighWater(s.lastEventId, DeliveredIds(s.scanId, init)));
        assert DeliverAll(s, frames).threw <==> TooFar(s, frames, k);
      }
    }
  }

  /** The frames are the next ones of the log, in order. */
  ghost predicate InOrder(log: seq<ScanEvent>, s: Snapshot, frames: seq<ScanEvent>) {
    && s.lastEventId + |frames| <= |log|
    && forall i :: 0 <= i < |frames| ==> frames[i] == log[s.lastEventId + i]
  }

  lemma InOrderIds(log: seq<ScanEvent>, s: Snapshot, frames: seq<ScanEvent>)
    requires DurableLog(log, s.scanId) && InOrder(log, s, frames)
    ensures AllGenuine(log, s.scanId, frames)
    ensures var high := s.lastEventId + |frames|; var ids := DeliveredIds(s.scanId, frames);
            HighWater(s.lastEventId, ids) == high && IdsAbove(ids, high) == {}
  {
    var ids, high := DeliveredIds(s.scanId, frames), s.lastEventId + |frames|;
    forall k: nat | s.lastEventId < k <= high
      ensures k in ids
    {
      var e := frames[k - 1 - s.lastEventId];
      assert e in frames && e.eventId == k;
    }
    assert forall k :: k in ids ==> k <= high;
    HighWaterUnique(s.lastEventId, ids, high);
  }

  lemma InOrderNotTooFar(log: seq<ScanEvent>, s: Snapshot, frames: seq<ScanEvent>, n: nat)
    requires DurableLog(log, s.scanId) && InOrder(log, s, frames) && n < |frames|
    ensures !TooFar(s, frames, n)
  {
    InOrderIds(log, s, frames[..n]);
    assert frames[n] == log[s.lastEventId + n];
  }

  lemma InOrderNeverThrows(log: seq<ScanEvent>, s: Snapshot, frames: seq<ScanEvent>)
    requires DurableLog(log, s.scanId) && InOrder(log, s, frames)
    ensures !DeliverAll(s, frames).threw
  {
    InOrderIds(log, s, frames);
    ThrowsExactlyWhen(log, s, frames);
    forall n | 0 <= n < |frames|
      ensures !TooFar(s, frames, n)
    {
      InOrderNotTooFar(log, s, frames, n);
    }
  }

  lemma NothingWaits(log: seq<ScanEvent>, s: Snapshot, ids: set<nat>, d: Delivery)
    requires Settled(log, s, ids, d) && IdsAbove(ids, HighWater(s.lastEventId, ids)) == {} && !d.threw
    ensures d == Delivery(ReplayTo(s, log, HighWater(s.lastEventId, ids)), map[], false)
  {
    assert d.pending.Keys == {};
  }

  /** Replaying the log in order from the cursor never throws, ends at the head and leaves the buffer empty. */
  lemma InOrderReplay(log: seq<ScanEvent>, s: Snapshot, frames: seq<ScanEvent>)
    requires DurableLog(log, s.scanId) && InOrder(log, s, frames)
    ensures DeliverAll(s, frames) == Delivery(ReplayTo(s, log, s.lastEventId + |frames|), map[], false)
  {
    InOrderIds(log, s, frames);
    InOrderNeverThrows(log, s, frames);
    Confluence(log, s, frames);
    NothingWaits(log, s, DeliveredIds(s.scanId, frames), DeliverAll(s, frames));
  }

  // ----- How much is held -----

  lemma {:induction false} RangeSize(ids: set<nat>, lo: nat, n: nat)
    requires forall k :: k in ids ==> lo <= k < lo + n
    ensures |ids| <= n
    ensures (forall k :: lo <= k < lo + n ==> k in ids) ==> |ids| == n
  {
    if n == 0 {
    } else {
      RangeSize(ids - {lo + n - 1}, lo, n - 1);
    }
  }

  /** At most 127 events wait, one fewer than WINDOW. */
  lemma AtMost127Held(s: Snapshot, pending: map<nat, ScanEvent>)
    requires Window(s, pending)
    ensures |pending| <= 127
  {
    RangeSize(pending.Keys, s.lastEventId + 2, WINDOW - 1);
    assert |pending| == |pending.Keys|;
  }

  /** Everything of the window but the next event, in order. */
  ghost function AllButNext(log: seq<ScanEvent>, last: nat): seq<ScanEvent>
    requires last + WINDOW <= |log|
  {
    seq(WINDOW - 1, i requires 0 <= i < WINDOW - 1 => log[last + 1 + i])
  }

  lemma AllButNextIds(log: seq<ScanEvent>, scanId: string, last: nat)
    requires DurableLog(log, scanId) && last + WINDOW <= |log|
    ensures AllGenuine(log, scanId, AllButNext(log, last))
    ensures forall k: nat :: k in DeliveredIds(scanId, AllButNext(log, last)) <==> last + 2 <= k <= last + WINDOW
  {
    var frames := AllButNext(log, last);
    forall k: nat | last + 2 <= k <= last + WINDOW
      ensures k in DeliveredIds(scanId, frames)
    {
      var e := frames[k - last - 2];
      assert e in frames && e.eventId == k;
    }
  }

  lemma AllButNextAccepted(log: seq<ScanEvent>, s: Snapshot)
    requires DurableLog(log, s.scanId) && s.lastEventId + WINDOW <= |log|
    ensures !DeliverAll(s, AllButNext(log, s.lastEventId)).threw
  {
    var frames := AllButNext(log, s.lastEventId);
    AllButNextIds(log, s.scanId, s.lastEventId);
    ThrowsExactlyWhen(log, s, frames);
  }

  /** The bound is reached. */
  lemma HoldsExactly127(log: seq<ScanEvent>, s: Snapshot)
    requires DurableLog(log, s.scanId) && s.lastEventId + WINDOW <= |log|
    ensures var d := DeliverAll(s, AllButNext(log, s.lastEventId));
            !d.threw && d.snapshot == s && |d.pending| == 127
  {
    var last := s.lastEventId;
    var frames := AllButNext(log, last);
    var ids := DeliveredIds(s.scanId, frames);
    AllButNextIds(log, s.scanId, last);
    AllButNextAccepted(log, s);
    Confluence(log, s, frames);
    HighWaterUnique(last, ids, last);
    assert IdsAbove(ids, last) == ids;
    RangeSize(ids, last + 2, WINDOW - 1);
    var pending := DeliverAll(s, frames).pending;
    assert |pending| == |pending.Keys|;
  }
}
