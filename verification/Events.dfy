/** The dashboard's snapshot and the events that update it
    (WebUI/src/lib/events.ts): the reducer, its fold over an event list, and the
    laws of that fold. */
module Events {
  import opened Options
  import opened Orders

  datatype Stage = Scope | Recon | Attack | Chaining | Validation | Report
  datatype Level = Info | Success | Warning | Error
  datatype ScanStatus = Running | Paused | Completed | Failed | Cancelled | Pending

  /** A message parameter.  A number carries the text JavaScript renders it to. */
  datatype ParamValue = Text(text: string) | Number(value: real, shown: string)

  datatype LogBody = LogBody(
    stage: Stage, level: Level, message: string,
    messageCode: Option<string>, messageParams: Option<map<string, ParamValue>>, auditId: Option<string>)

  datatype Log = Log(id: nat, time: string, body: LogBody)

  datatype Finding = Finding(
    id: string, title: string, severity: string, status: string, endpoint: string, cwe: string)

  /** The part of a snapshot that events rewrite. */
  datatype View = View(
    status: ScanStatus, stage: Stage,
    stageStatuses: Option<map<Stage, string>>, progress: real, activity: Option<string>,
    requests: nat, endpoints: nat, serviceEndpoints: Option<nat>, liveEndpoints: Option<nat>,
    findings: seq<Finding>, logs: seq<Log>)

  /** A snapshot: which scan, the highest event id it reflects, and what it shows. */
  datatype Snapshot = Snapshot(scanId: string, lastEventId: nat, view: View)

  /** In TaskProgressUpdated an absent key is None; a present null activity is Some(None). */
  datatype Payload =
    | Heartbeat
    | LogAppended(body: LogBody)
    | TaskProgressUpdated(
        progress: real, requests: nat, activity: Option<Option<string>>,
        endpoints: Option<nat>, serviceEndpoints: Option<nat>, liveEndpoints: Option<nat>)
    | StageStatusChanged(stage: Stage, stageStatuses: Option<map<Stage, string>>)
    | ScanStatusChanged(status: ScanStatus)
    | FindingUpdated(finding: Finding)

  datatype ScanEvent = ScanEvent(eventId: nat, scanId: string, occurredAt: string, payload: Payload)

  const LOG_LIMIT: nat := 500

  // ----- The reducer -----

  /** Events that leave the snapshot alone: another scan's, heartbeats, and anything at or below the cursor. */
  predicate Ignored(s: Snapshot, e: ScanEvent) {
    e.scanId != s.scanId || e.payload.Heartbeat? || e.eventId <= s.lastEventId
  }

  function LogOf(e: ScanEvent): Log
    requires e.payload.LogAppended?
  {
    Log(e.eventId, e.occurredAt, e.payload.body)
  }

  function WithoutFinding(fs: seq<Finding>, id: string): seq<Finding> {
    if fs == [] then []
    else if fs[0].id == id then WithoutFinding(fs[1..], id)
    else [fs[0]] + WithoutFinding(fs[1..], id)
  }

  function ApplyEvent(s: Snapshot, e: ScanEvent): Snapshot {
    if Ignored(s, e) then s else Snapshot(s.scanId, e.eventId, Update(s.view, e))
  }

  function Update(v: View, e: ScanEvent): View {
    match e.payload
    case Heartbeat => v
    case LogAppended(_) =>
      v.(logs := Last(v.logs + [LogOf(e)], LOG_LIMIT))
    case TaskProgressUpdated(progress, requests, activity, endpoints, service, live) =>
      v.(progress := progress, requests := requests,
         activity := activity.GetOr(v.activity),
         endpoints := endpoints.GetOr(v.endpoints),
         serviceEndpoints := if service.Some? then service else v.serviceEndpoints,
         liveEndpoints := if live.Some? then live else v.liveEndpoints)
    case StageStatusChanged(stage, statuses) =>
      v.(stage := stage,
         stageStatuses := if statuses.Some? then statuses else v.stageStatuses,
         progress := if stage == v.stage then v.progress else 0.0)
    case ScanStatusChanged(status) => v.(status := status)
    case FindingUpdated(f) => v.(findings := WithoutFinding(v.findings, f.id) + [f])
  }

  /** The events of "es" applied one after the other: the simple in-order meaning of a stream. */
  function Replay(s: Snapshot, es: seq<ScanEvent>): Snapshot {
    if es == [] then s else ApplyEvent(Replay(s, es[..|es| - 1]), es[|es| - 1])
  }

  lemma {:induction false} ReplaySplit(s: Snapshot, a: seq<ScanEvent>, b: seq<ScanEvent>)
    ensures Replay(s, a + b) == Replay(Replay(s, a), b)
  {
    if b == [] {
      assert a + b == a;
    } else {
      var k := |b| - 1;
      assert (a + b)[..|a + b| - 1] == a + b[..k];
      ReplaySplit(s, a, b[..k]);
    }
  }

  /** The cursor never goes back, and the scan never changes, whatever is replayed. */
  lemma {:induction false} ReplayCursor(s: Snapshot, es: seq<ScanEvent>)
    ensures Replay(s, es).scanId == s.scanId
    ensures s.lastEventId <= Replay(s, es).lastEventId
  {
    if es == [] {
    } else {
      ReplayCursor(s, es[..|es| - 1]);
    }
  }

  // ----- Which events take effect -----

  /** An event of this scan's durable sequence. */
  predicate Durable(scanId: string, e: ScanEvent) {
    e.scanId == scanId && !e.payload.Heartbeat?
  }

  /** The cursor ends at the highest id offered. */
  lemma {:induction false} CursorIsHighest(s: Snapshot, es: seq<ScanEvent>)
    ensures forall j :: 0 <= j < |es| && Durable(s.scanId, es[j]) ==> es[j].eventId <= Replay(s, es).lastEventId
    ensures Replay(s, es).lastEventId == s.lastEventId ||
            exists j :: 0 <= j < |es| && Durable(s.scanId, es[j]) && es[j].eventId == Replay(s, es).lastEventId
  {
    ReplayCursor(s, es);
    if es == [] {
    } else {
      var k := |es| - 1;
      CursorIsHighest(s, es[..k]);
      ReplayCursor(s, es[..k]);
      assert forall j :: 0 <= j < k ==> es[..k][j] == es[j];
    }
  }

  /** An event takes effect exactly when it is durable and above the first cursor and every durable event before it. */
  lemma EffectiveExactlyWhen(s: Snapshot, es: seq<ScanEvent>, i: nat)
    requires i < |es|
    ensures !Ignored(Replay(s, es[..i]), es[i]) <==>
              && es[i].scanId == s.scanId && !es[i].payload.Heartbeat? && s.lastEventId < es[i].eventId
              && forall j :: 0 <= j < i && es[j].scanId == s.scanId && !es[j].payload.Heartbeat? ==>
                   es[j].eventId < es[i].eventId
  {
    CursorIsHighest(s, es[..i]);
    ReplayCursor(s, es[..i]);
    assert forall j :: 0 <= j < i ==> es[..i][j] == es[j];
  }

  // ----- Law 1: truncating at every event is truncating once -----

  /** The same reducer without the retention limit. */
  function ApplyKeepingAll(s: Snapshot, e: ScanEvent): Snapshot {
    if Ignored(s, e) || !e.payload.LogAppended? then ApplyEvent(s, e)
    else Snapshot(s.scanId, e.eventId, s.view.(logs := s.view.logs + [LogOf(e)]))
  }

  function ReplayKeepingAll(s: Snapshot, es: seq<ScanEvent>): Snapshot {
    if es == [] then s else ApplyKeepingAll(ReplayKeepingAll(s, es[..|es| - 1]), es[|es| - 1])
  }

  function Truncated(s: Snapshot): Snapshot {
    s.(view := s.view.(logs := Last(s.view.logs, LOG_LIMIT)))
  }

  lemma LastOfAppended<T>(a: seq<T>, b: seq<T>, x: T, n: nat)
    requires Last(a, n) == Last(b, n)
    ensures Last(a + [x], n) == Last(b + [x], n)
  {
    var la, lb := Last(a + [x], n), Last(b + [x], n);
    forall t: seq<T>
      ensures Last(t + [x], n) == Last(Last(t, n) + [x], n)
    {
    }
  }

  lemma TruncatedStep(a: Snapshot, b: Snapshot, e: ScanEvent)
    requires Truncated(a) == Truncated(b)
    ensures Truncated(ApplyEvent(a, e)) == Truncated(ApplyKeepingAll(b, e))
    ensures |a.view.logs| <= LOG_LIMIT ==> |ApplyEvent(a, e).view.logs| <= LOG_LIMIT
  {
    assert a.view.(logs := []) == Truncated(a).view.(logs := []);
    assert b.view.(logs := []) == Truncated(b).view.(logs := []);
    if e.payload.LogAppended? {
      LastOfAppended(a.view.logs, b.view.logs, LogOf(e), LOG_LIMIT);
      LastTwice(a.view.logs + [LogOf(e)], LOG_LIMIT);
    }
  }

  /** Keeping 500 log lines at every event keeps what cutting the full log to 500 once would keep. */
  lemma {:induction false} TruncateOnce(s: Snapshot, es: seq<ScanEvent>)
    ensures Truncated(Replay(s, es)) == Truncated(ReplayKeepingAll(s, es))
    ensures |s.view.logs| <= LOG_LIMIT ==>
              |Replay(s, es).view.logs| <= LOG_LIMIT && Replay(s, es) == Truncated(ReplayKeepingAll(s, es))
  {
    if es == [] {
    } else {
      var k := |es| - 1;
      TruncateOnce(s, es[..k]);
      TruncatedStep(Replay(s, es[..k]), ReplayKeepingAll(s, es[..k]), es[k]);
    }
  }

  lemma LastTwice<T>(s: seq<T>, n: nat)
    ensures Last(Last(s, n), n) == Last(s, n)
  {
  }

  // ----- Law 2: what every event keeps -----

  /** Log ids strictly ascending and at most "bound". */
  predicate Ascending(logs: seq<Log>, bound: nat) {
    && (forall i :: 0 <= i < |logs| ==> logs[i].id <= bound)
    && (forall i, j :: 0 <= i < j < |logs| ==> logs[i].id < logs[j].id)
  }

  predicate LogsOrdered(s: Snapshot) {
    |s.view.logs| <= LOG_LIMIT && Ascending(s.view.logs, s.lastEventId)
  }

  predicate UniqueIds(fs: seq<Finding>) {
    forall i, j :: 0 <= i < j < |fs| ==> fs[i].id != fs[j].id
  }

  predicate FindingsUnique(s: Snapshot) {
    UniqueIds(s.view.findings)
  }

  lemma {:induction false} WithoutFindingMembers(fs: seq<Finding>, id: string)
    ensures forall f :: f in WithoutFinding(fs, id) <==> f in fs && f.id != id
  {
    if fs == [] {
    } else {
      assert fs == [fs[0]] + fs[1..];
      WithoutFindingMembers(fs[1..], id);
    }
  }

  lemma {:induction false} WithoutFindingUnique(fs: seq<Finding>, id: string)
    requires UniqueIds(fs)
    ensures UniqueIds(WithoutFinding(fs, id))
  {
    if fs == [] {
    } else {
      WithoutFindingUnique(fs[1..], id);
      WithoutFindingMembers(fs[1..], id);
      var rest := WithoutFinding(fs[1..], id);
      forall k | 0 <= k < |rest|
        ensures rest[k].id != fs[0].id
      {
        assert rest[k] in rest;
        var m :| 0 <= m < |fs[1..]| && fs[1..][m] == rest[k];
        assert fs[m + 1] == rest[k];
      }
    }
  }

  lemma UpdateKeepsFindingsUnique(v: View, f: Finding)
    requires UniqueIds(v.findings)
    ensures UniqueIds(WithoutFinding(v.findings, f.id) + [f])
  {
    WithoutFindingUnique(v.findings, f.id);
    WithoutFindingMembers(v.findings, f.id);
    var kept := WithoutFinding(v.findings, f.id);
    assert forall i :: 0 <= i < |kept| ==> kept[i] in kept;
  }

  lemma AppendAscends(logs: seq<Log>, bound: nat, l: Log)
    requires Ascending(logs, bound) && bound < l.id
    ensures Ascending(logs + [l], l.id)
  {
  }

  lemma LastAscends(logs: seq<Log>, bound: nat, n: nat)
    requires Ascending(logs, bound)
    ensures Ascending(Last(logs, n), bound)
  {
    var kept := Last(logs, n);
    var d := |logs| - |kept|;
    forall i, j | 0 <= i <= j < |kept|
      ensures kept[i].id <= bound && (i < j ==> kept[i].id < kept[j].id)
    {
      assert kept[i] == logs[d + i] && kept[j] == logs[d + j];
    }
  }

  /** Replaying keeps log ids strictly ascending, at most the cursor and at most 500. */
  lemma {:induction false} ReplayKeepsLogsOrdered(s: Snapshot, es: seq<ScanEvent>)
    requires LogsOrdered(s)
    ensures LogsOrdered(Replay(s, es))
  {
    if es == [] {
    } else {
      var before, e := Replay(s, es[..|es| - 1]), es[|es| - 1];
      ReplayKeepsLogsOrdered(s, es[..|es| - 1]);
      if !Ignored(before, e) && e.payload.LogAppended? {
        AppendAscends(before.view.logs, before.lastEventId, LogOf(e));
        LastAscends(before.view.logs + [LogOf(e)], e.eventId, LOG_LIMIT);
      }
    }
  }

  /** Replaying keeps finding ids unique. */
  lemma {:induction false} ReplayKeepsFindingsUnique(s: Snapshot, es: seq<ScanEvent>)
    requires FindingsUnique(s)
    ensures FindingsUnique(Replay(s, es))
  {
    if es == [] {
    } else {
      var k := |es| - 1;
      ReplayKeepsFindingsUnique(s, es[..k]);
      if es[k].payload.FindingUpdated? {
        UpdateKeepsFindingsUnique(Replay(s, es[..k]).view, es[k].payload.finding);
      }
    }
  }

  // ----- Law 3: every field holds its latest write -----

  /** Event "i" of "es" takes effect and writes what "write" reads off it. */
  ghost predicate Writes<T>(write: (View, ScanEvent) -> Option<T>, s: Snapshot, es: seq<ScanEvent>, i: nat)
    requires i < |es|
  {
    var before := Replay(s, es[..i]);
    !Ignored(before, es[i]) && write(before.view, es[i]).Some?
  }

  /** No write that takes effect has a higher event id than that of event "i". */
  ghost predicate HighestWrite<T>(write: (View, ScanEvent) -> Option<T>, s: Snapshot, es: seq<ScanEvent>, i: nat) {
    && i < |es| && Writes(write, s, es, i)
    && forall j :: 0 <= j < |es| && Writes(write, s, es, j) ==> es[j].eventId <= es[i].eventId
  }

  ghost predicate WrittenBy<T>(write: (View, ScanEvent) -> Option<T>, s: Snapshot, es: seq<ScanEvent>, value: T, i: nat) {
    HighestWrite(write, s, es, i) && write(Replay(s, es[..i]).view, es[i]) == Some(value)
  }

  ghost predicate NoWrites<T>(write: (View, ScanEvent) -> Option<T>, s: Snapshot, es: seq<ScanEvent>) {
    forall i: nat :: i < |es| ==> !Writes(write, s, es, i)
  }

  /** "value" is what the highest-numbered effective write writes, or "initial" when there is no such write. */
  ghost predicate HoldsLatest<T>(
    write: (View, ScanEvent) -> Option<T>, s: Snapshot, es: seq<ScanEvent>, initial: T, value: T)
  {
    || (exists i: nat :: WrittenBy(write, s, es, value, i))
    || (value == initial && NoWrites(write, s, es))
  }

  /** "write" says all that one event does to what "read" shows. */
  ghost predicate IsRegister<T>(read: View -> T, write: (View, ScanEvent) -> Option<T>) {
    forall v: View, e: ScanEvent :: read(Update(v, e)) == write(v, e).GetOr(read(v))
  }

  /** An event that takes effect is above every event that took effect before it. */
  lemma EffectiveAscend(s: Snapshot, es: seq<ScanEvent>, i: nat, j: nat)
    requires i < j < |es|
    requires !Ignored(Replay(s, es[..i]), es[i]) && !Ignored(Replay(s, es[..j]), es[j])
    ensures es[i].eventId < es[j].eventId
  {
    assert es[..j] == es[..i + 1] + es[i + 1..j];
    assert es[..i + 1][..i] == es[..i];
    ReplaySplit(s, es[..i + 1], es[i + 1..j]);
    ReplayCursor(Replay(s, es[..i + 1]), es[i + 1..j]);
  }

  /** If the last event writes, it is the highest-numbered write, and the only one. */
  lemma LastIsHighest<T>(write: (View, ScanEvent) -> Option<T>, s: Snapshot, es: seq<ScanEvent>)
    requires es != [] && Writes(write, s, es, |es| - 1)
    ensures forall i: nat :: HighestWrite(write, s, es, i) <==> i == |es| - 1
  {
    var k := |es| - 1;
    forall j | 0 <= j < k && Writes(write, s, es, j)
      ensures es[j].eventId < es[k].eventId
    {
      EffectiveAscend(s, es, j, k);
    }
  }

  lemma LatestAfterWrite<T>(
    write: (View, ScanEvent) -> Option<T>, s: Snapshot, es: seq<ScanEvent>, initial: T, value: T)
    requires es != [] && Writes(write, s, es, |es| - 1)
    ensures var k := |es| - 1;
            HoldsLatest(write, s, es, initial, value) <==> write(Replay(s, es[..k]).view, es[k]) == Some(value)
  {
    LastIsHighest(write, s, es);
    assert WrittenBy(write, s, es, value, |es| - 1) <==>
             write(Replay(s, es[..|es| - 1]).view, es[|es| - 1]) == Some(value);
  }

  lemma WritesOfPrefix<T>(write: (View, ScanEvent) -> Option<T>, s: Snapshot, es: seq<ScanEvent>)
    requires es != [] && !Writes(write, s, es, |es| - 1)
    ensures forall i: nat :: i < |es| - 1 ==> (Writes(write, s, es, i) <==> Writes(write, s, es[..|es| - 1], i))
  {
    forall i: nat | i < |es| - 1
      ensures Writes(write, s, es, i) <==> Writes(write, s, es[..|es| - 1], i)
    {
      assert es[..|es| - 1][..i] == es[..i];
    }
  }

  lemma NoWritesOfPrefix<T>(write: (View, ScanEvent) -> Option<T>, s: Snapshot, es: seq<ScanEvent>)
    requires es != [] && !Writes(write, s, es, |es| - 1)
    ensures NoWrites(write, s, es) <==> NoWrites(write, s, es[..|es| - 1])
  {
    var init := es[..|es| - 1];
    WritesOfPrefix(write, s, es);
    if NoWrites(write, s, es) {
      forall i: nat | i < |init|
        ensures !Writes(write, s, init, i)
      {
        assert !Writes(write, s, es, i);
      }
    } else {
      var i: nat :| i < |es| && Writes(write, s, es, i);
      assert Writes(write, s, init, i);
    }
  }

  lemma HighestOfPrefix<T>(write: (View, ScanEvent) -> Option<T>, s: Snapshot, es: seq<ScanEvent>, i: nat)
    requires es != [] && !Writes(write, s, es, |es| - 1) && i < |es| - 1
    ensures HighestWrite(write, s, es, i) <==> HighestWrite(write, s, es[..|es| - 1], i)
  {
    WritesOfPrefix(write, s, es);
    var init := es[..|es| - 1];
    if HighestWrite(write, s, init, i) {
      forall j | 0 <= j < |es| && Writes(write, s, es, j)
        ensures es[j].eventId <= es[i].eventId
      {
        assert Writes(write, s, init, j) && init[j] == es[j];
      }
    } else if HighestWrite(write, s, es, i) {
      forall j | 0 <= j < |init| && Writes(write, s, init, j)
        ensures init[j].eventId <= init[i].eventId
      {
        assert Writes(write, s, es, j);
      }
    }
  }

  lemma LatestAfterOther<T>(
    write: (View, ScanEvent) -> Option<T>, s: Snapshot, es: seq<ScanEvent>, initial: T, value: T)
    requires es != [] && !Writes(write, s, es, |es| - 1)
    ensures HoldsLatest(write, s, es, initial, value) <==> HoldsLatest(write, s, es[..|es| - 1], initial, value)
  {
    var init := es[..|es| - 1];
    WritesOfPrefix(write, s, es);
    forall i: nat
      ensures WrittenBy(write, s, es, value, i) <==> WrittenBy(write, s, init, value, i)
    {
      if i < |init| {
        HighestOfPrefix(write, s, es, i);
        assert init[..i] == es[..i];
      }
    }
    NoWritesOfPrefix(write, s, es);
  }

  /** Whatever order and repetition the list has, a register shows its highest-numbered effective write. */
  lemma {:induction false} RegisterHoldsLatest<T>(
    read: View -> T, write: (View, ScanEvent) -> Option<T>, s: Snapshot, es: seq<ScanEvent>, value: T)
    requires IsRegister(read, write)
    ensures read(Replay(s, es).view) == value <==> HoldsLatest(write, s, es, read(s.view), value)
  {
    if es == [] {
    } else {
      var k := |es| - 1;
      RegisterHoldsLatest(read, write, s, es[..k], value);
      var before := Replay(s, es[..k]);
      assert !Ignored(before, es[k]) ==>
               read(Update(before.view, es[k])) == write(before.view, es[k]).GetOr(read(before.view));
      if Writes(write, s, es, k) {
        LatestAfterWrite(write, s, es, read(s.view), value);
      } else {
        LatestAfterOther(write, s, es, read(s.view), value);
      }
    }
  }

  /** An update of the finding's id: whether it leaves "f". */
  function Leaves(f: Finding): (View, ScanEvent) -> Option<bool> {
    (v: View, e: ScanEvent) =>
      if e.payload.FindingUpdated? && e.payload.finding.id == f.id then Some(e.payload.finding == f) else None
  }

  function Shows(f: Finding): View -> bool {
    (v: View) => f in v.findings
  }

  lemma FindingIsRegister(f: Finding)
    ensures IsRegister(Shows(f), Leaves(f))
  {
    forall v: View, e: ScanEvent
      ensures Shows(f)(Update(v, e)) == Leaves(f)(v, e).GetOr(Shows(f)(v))
    {
      if e.payload.FindingUpdated? {
        WithoutFindingMembers(v.findings, e.payload.finding.id);
      }
    }
  }

  /** A finding is in the snapshot exactly when it is its id's highest-numbered update,
      or was there at the start and its id was never updated. */
  lemma FindingsHoldLatest(s: Snapshot, es: seq<ScanEvent>, f: Finding)
    ensures f in Replay(s, es).view.findings <==>
              || (exists i: nat :: HighestWrite(Leaves(f), s, es, i) && es[i].payload.finding == f)
              || (f in s.view.findings && NoWrites(Leaves(f), s, es))
  {
    FindingIsRegister(f);
    RegisterHoldsLatest(Shows(f), Leaves(f), s, es, true);
    forall i: nat
      ensures WrittenBy(Leaves(f), s, es, true, i) <==> HighestWrite(Leaves(f), s, es, i) && es[i].payload.finding == f
    {
    }
  }

  // What each kind of event writes; an absent optional key writes nothing.

  function StatusOf(v: View, e: ScanEvent): Option<ScanStatus> {
    match e.payload case ScanStatusChanged(status) => Some(status) case _ => None
  }

  function StageOf(v: View, e: ScanEvent): Option<Stage> {
    match e.payload case StageStatusChanged(stage, _) => Some(stage) case _ => None
  }

  function StageStatusesOf(v: View, e: ScanEvent): Option<Option<map<Stage, string>>> {
    if e.payload.StageStatusChanged? && e.payload.stageStatuses.Some? then Some(e.payload.stageStatuses) else None
  }

  /** Progress starts over when the stage changes. */
  function ProgressOf(v: View, e: ScanEvent): Option<real> {
    if e.payload.TaskProgressUpdated? then Some(e.payload.progress)
    else if e.payload.StageStatusChanged? && e.payload.stage != v.stage then Some(0.0)
    else None
  }

  function ActivityOf(v: View, e: ScanEvent): Option<Option<string>> {
    if e.payload.TaskProgressUpdated? then e.payload.activity else None
  }

  function RequestsOf(v: View, e: ScanEvent): Option<nat> {
    if e.payload.TaskProgressUpdated? then Some(e.payload.requests) else None
  }

  function EndpointsOf(v: View, e: ScanEvent): Option<nat> {
    if e.payload.TaskProgressUpdated? then e.payload.endpoints else None
  }

  function ServiceEndpointsOf(v: View, e: ScanEvent): Option<Option<nat>> {
    if e.payload.TaskProgressUpdated? && e.payload.serviceEndpoints.Some? then Some(e.payload.serviceEndpoints) else None
  }

  function LiveEndpointsOf(v: View, e: ScanEvent): Option<Option<nat>> {
    if e.payload.TaskProgressUpdated? && e.payload.liveEndpoints.Some? then Some(e.payload.liveEndpoints) else None
  }

  /** Each field but the log list and the findings shows "r"'s value exactly when its highest-numbered effective
      write wrote that, or nothing wrote it and it was so at the start. */
  lemma FieldsHoldLatest(s: Snapshot, es: seq<ScanEvent>, r: View)
    ensures var w := Replay(s, es).view;
            && (w.status == r.status <==> HoldsLatest(StatusOf, s, es, s.view.status, r.status))
            && (w.stage == r.stage <==> HoldsLatest(StageOf, s, es, s.view.stage, r.stage))
            && (w.progress == r.progress <==> HoldsLatest(ProgressOf, s, es, s.view.progress, r.progress))
            && (w.activity == r.activity <==> HoldsLatest(ActivityOf, s, es, s.view.activity, r.activity))
            && (w.requests == r.requests <==> HoldsLatest(RequestsOf, s, es, s.view.requests, r.requests))
            && (w.endpoints == r.endpoints <==> HoldsLatest(EndpointsOf, s, es, s.view.endpoints, r.endpoints))
  {
    RegisterHoldsLatest((v: View) => v.status, StatusOf, s, es, r.status);
    RegisterHoldsLatest((v: View) => v.stage, StageOf, s, es, r.stage);
    RegisterHoldsLatest((v: View) => v.progress, ProgressOf, s, es, r.progress);
    RegisterHoldsLatest((v: View) => v.activity, ActivityOf, s, es, r.activity);
    RegisterHoldsLatest((v: View) => v.requests, RequestsOf, s, es, r.requests);
    RegisterHoldsLatest((v: View) => v.endpoints, EndpointsOf, s, es, r.endpoints);
  }

  /** So do the optional fields: an absent value never erases a present one. */
  lemma OptionalsHoldLatest(s: Snapshot, es: seq<ScanEvent>, r: View)
    ensures var w := Replay(s, es).view;
            && (w.stageStatuses == r.stageStatuses <==>
                  HoldsLatest(StageStatusesOf, s, es, s.view.stageStatuses, r.stageStatuses))
            && (w.serviceEndpoints == r.serviceEndpoints <==>
                  HoldsLatest(ServiceEndpointsOf, s, es, s.view.serviceEndpoints, r.serviceEndpoints))
            && (w.liveEndpoints == r.liveEndpoints <==>
                  HoldsLatest(LiveEndpointsOf, s, es, s.view.liveEndpoints, r.liveEndpoints))
  {
    RegisterHoldsLatest((v: View) => v.stageStatuses, StageStatusesOf, s, es, r.stageStatuses);
    RegisterHoldsLatest((v: View) => v.serviceEndpoints, ServiceEndpointsOf, s, es, r.serviceEndpoints);
    RegisterHoldsLatest((v: View) => v.liveEndpoints, LiveEndpointsOf, s, es, r.liveEndpoints);
  }

  // ----- Law 4: the log list shows the events -----

  /** Event "i" appends a line and is durable, above the first cursor and above every durable event before it. */
  predicate Appends(s: Snapshot, es: seq<ScanEvent>, i: nat) {
    && i < |es| && es[i].payload.LogAppended? && es[i].scanId == s.scanId && s.lastEventId < es[i].eventId
    && forall j :: 0 <= j < i && es[j].scanId == s.scanId && !es[j].payload.Heartbeat? ==> es[j].eventId < es[i].eventId
  }

  /** "l" is the line of event "i": its id, its time and its content. */
  predicate IsLineOf(s: Snapshot, es: seq<ScanEvent>, i: nat, l: Log) {
    && Appends(s, es, i)
    && l.id == es[i].eventId && l.time == es[i].occurredAt && l.body == es[i].payload.body
  }

  ghost predicate IsSomeLine(s: Snapshot, es: seq<ScanEvent>, l: Log) {
    exists i: nat :: IsLineOf(s, es, i, l)
  }

  lemma LinesOfLonger(s: Snapshot, es: seq<ScanEvent>, l: Log)
    requires es != []
    ensures IsSomeLine(s, es, l) <==> IsSomeLine(s, es[..|es| - 1], l) || IsLineOf(s, es, |es| - 1, l)
  {
    var init := es[..|es| - 1];
    forall i: nat | i < |init|
      ensures IsLineOf(s, es, i, l) <==> IsLineOf(s, init, i, l)
    {
      assert forall j :: 0 <= j <= i ==> init[j] == es[j];
    }
    if IsSomeLine(s, es, l) {
      var i: nat :| IsLineOf(s, es, i, l);
      assert i < |init| ==> IsLineOf(s, init, i, l);
    }
    if IsSomeLine(s, init, l) {
      var i: nat :| IsLineOf(s, init, i, l);
      assert IsLineOf(s, es, i, l);
    }
  }

  /** Without the limit the list holds exactly what was there and the line of every appending event. */
  lemma {:induction false} AllLinesKept(s: Snapshot, es: seq<ScanEvent>, l: Log)
    ensures l in ReplayKeepingAll(s, es).view.logs <==> l in s.view.logs || IsSomeLine(s, es, l)
    ensures ReplayKeepingAll(s, es).lastEventId == Replay(s, es).lastEventId
    ensures ReplayKeepingAll(s, es).scanId == Replay(s, es).scanId == s.scanId
  {
    TruncateOnce(s, es);
    ReplayCursor(s, es);
    assert Truncated(Replay(s, es)).lastEventId == Truncated(ReplayKeepingAll(s, es)).lastEventId;
    assert Truncated(Replay(s, es)).scanId == Truncated(ReplayKeepingAll(s, es)).scanId;
    if es == [] {
    } else {
      var k := |es| - 1;
      AllLinesKept(s, es[..k], l);
      LinesOfLonger(s, es, l);
      EffectiveExactlyWhen(s, es, k);
    }
  }

  lemma {:induction false} AllLinesAscend(s: Snapshot, es: seq<ScanEvent>)
    requires LogsOrdered(s)
    ensures Ascending(ReplayKeepingAll(s, es).view.logs, ReplayKeepingAll(s, es).lastEventId)
  {
    if es == [] {
    } else {
      var before, e := ReplayKeepingAll(s, es[..|es| - 1]), es[|es| - 1];
      AllLinesAscend(s, es[..|es| - 1]);
      if !Ignored(before, e) && e.payload.LogAppended? {
        AppendAscends(before.view.logs, before.lastEventId, LogOf(e));
      }
    }
  }

  /** Every record shown was there at the start or is the line of an appending event, with that event's id, time
      and content. Whatever of these is not shown comes before 500 others that are. */
  lemma LogsShowEvents(s: Snapshot, es: seq<ScanEvent>, l: Log)
    requires LogsOrdered(s)
    ensures var logs := Replay(s, es).view.logs;
            && |logs| <= 500
            && (l in logs ==> l in s.view.logs || IsSomeLine(s, es, l))
            && (l in s.view.logs || IsSomeLine(s, es, l) ==>
                  l in logs || (|logs| == 500 && forall k :: 0 <= k < |logs| ==> l.id < logs[k].id))
  {
    var all := ReplayKeepingAll(s, es).view.logs;
    AllLinesKept(s, es, l);
    AllLinesAscend(s, es);
    TruncateOnce(s, es);
    var byId := (a: Log, b: Log) => a.id < b.id;
    LastAreGreatest(byId, all, LOG_LIMIT);
    var logs := Last(all, LOG_LIMIT);
    assert Replay(s, es).view.logs == logs;
    assert forall k :: 0 <= k < |logs| ==> logs[k] in logs;
  }

  /** The newest lines: an appending event followed by fewer than 500 others is shown, as it was sent. */
  lemma NewestAreShown(s: Snapshot, es: seq<ScanEvent>, i: nat)
    requires LogsOrdered(s) && Appends(s, es, i)
    requires |set j | i < j < |es| && Appends(s, es, j)| < 500
    ensures exists k :: 0 <= k < |Replay(s, es).view.logs| &&
              var l := Replay(s, es).view.logs[k];
              l.id == es[i].eventId && l.time == es[i].occurredAt && l.body == es[i].payload.body
  {
    var l := Log(es[i].eventId, es[i].occurredAt, es[i].payload.body);
    var logs := Replay(s, es).view.logs;
    assert IsLineOf(s, es, i, l);
    LogsShowEvents(s, es, l);
    if l !in logs {
      LaterLines(s, es, i, logs);
    }
  }

  /** If every one of "logs" is the line of an event after "i", there are that many such events. */
  lemma LaterLines(s: Snapshot, es: seq<ScanEvent>, i: nat, logs: seq<Log>)
    requires LogsOrdered(s) && Appends(s, es, i) && logs == Replay(s, es).view.logs
    requires forall k :: 0 <= k < |logs| ==> es[i].eventId < logs[k].id
    ensures |logs| <= |set j | i < j < |es| && Appends(s, es, j)|
  {
    var later := set j | i < j < |es| && Appends(s, es, j);
    var ids := set j | j in later :: es[j].eventId;
    ReplayKeepsLogsOrdered(s, es);
    forall k | 0 <= k < |logs|
      ensures logs[k].id in ids
    {
      LogsShowEvents(s, es, logs[k]);
      assert logs[k] !in s.view.logs;
      var j: nat :| IsLineOf(s, es, j, logs[k]);
      assert Appends(s, es, j) && i < j;
      assert j in later;
    }
    FewerIds(es, later, ids);
    AscendingSize(logs, ids);
  }

  /** Events have at most as many ids as there are of them. */
  lemma {:induction false} FewerIds(es: seq<ScanEvent>, later: set<int>, ids: set<nat>)
    requires forall j :: j in later ==> 0 <= j < |es|
    requires forall id :: id in ids ==> exists j :: j in later && es[j].eventId == id
    ensures |ids| <= |later|
  {
    if ids == {} {
    } else {
      var id :| id in ids;
      var j :| j in later && es[j].eventId == id;
      FewerIds(es, later - {j}, ids - {id});
    }
  }

  lemma {:induction false} AscendingSize(logs: seq<Log>, ids: set<nat>)
    requires forall i, j :: 0 <= i < j < |logs| ==> logs[i].id < logs[j].id
    requires forall k :: 0 <= k < |logs| ==> logs[k].id in ids
    ensures |logs| <= |ids|
  {
    if logs == [] {
    } else {
      var n := |logs| - 1;
      AscendingSize(logs[..n], ids - {logs[n].id});
    }
  }
}
