/** The read-only observer of dashboard scans (scripts/observe_dashboard_runs.py):
    errors once seen stay, and a scan is accepted only after it has stayed
    terminal for the settle period.  The loop is proved to compute, for every
    scan, a function of the dashboard's answers and the clock; what acceptance
    means is then proved about that function, in terms of answers and clock alone. */
module RunObserver {
  import opened Options

  /** A log or audit entry: the key an error is filed under. */
  datatype Event = Event(key: string, isError: bool)

  datatype Row = Row(
    scanId: string, terminalStatus: Option<string>, stages: map<string, string>,
    errorKeys: set<string>, observationErrors: seq<string>, coverageComplete: bool, finalized: bool,
    summaryPresent: bool, reports: nat, modelsPersisted: bool, modelsMatch: bool)

  datatype Snap = Snap(status: string, stages: map<string, string>, logs: seq<Event>)

  /** What collecting the final artifacts brings: notes about what is unavailable, the artifacts, the full
      ledger if it can be read, and whether collecting breaks off with an exception. */
  datatype Final = Final(
    notes: seq<string>, summary: bool, reports: nat, models: bool, match_: bool,
    ledger: Option<seq<Event>>, breaksOff: bool)

  /** One round's answers for one scan. A failed audit request comes after the snapshot was taken over. */
  datatype Poll =
    | SnapshotFailed
    | AuditFailed(snap: Snap)
    | Answered(snap: Snap, audits: seq<Event>, final: Final)

  const PAGE_LIMIT: nat := 500
  const POLL_FAILED: string := "dashboard polling failed"
  const NO_LEDGER: string := "full dashboard event ledger unavailable"
  const DEADLINE: string := "observation deadline reached"
  const STAGES: seq<string> := ["Scope", "Recon", "Attack", "Chaining", "Validation", "Report"]

  predicate IsTerminal(status: string) {
    status == "completed" || status == "failed" || status == "cancelled"
  }

  function NewRow(scanId: string): Row {
    Row(scanId, None, map[], {}, [], true, false, false, 0, false, false)
  }

  // ----- Acceptance of one row -----

  predicate StagesDone(stages: map<string, string>) {
    && (forall i :: 0 <= i < |STAGES| ==>
          STAGES[i] in stages && (stages[STAGES[i]] == "completed" || stages[STAGES[i]] == "skipped"))
    && (forall k :: k in stages ==> stages[k] !in {"failed", "running", "pending", "cancelled"})
  }

  predicate Passed(r: Row) {
    && r.terminalStatus == Some("completed") && StagesDone(r.stages)
    && r.errorKeys == {} && r.coverageComplete && r.observationErrors == []
    && (r.summaryPresent || r.reports > 0) && r.modelsPersisted && r.modelsMatch
  }

  // ----- One round for one row -----

  function ErrorKeys(events: seq<Event>): set<string> {
    set e | e in events && e.isError :: e.key
  }

  lemma KeysOfErrors(events: seq<Event>)
    ensures forall key :: key in ErrorKeys(events) <==>
              exists i :: 0 <= i < |events| && events[i].isError && events[i].key == key
  {
    forall key
      ensures key in ErrorKeys(events) <==> exists i :: 0 <= i < |events| && events[i].isError && events[i].key == key
    {
      if key in ErrorKeys(events) {
        var e :| e in events && e.isError && e.key == key;
        var i :| 0 <= i < |events| && events[i] == e;
      }
      if i :| 0 <= i < |events| && events[i].isError && events[i].key == key {
        assert events[i] in events;
      }
    }
  }

  /** A page files nothing exactly when none of its entries is an error. */
  lemma NoKeysNoErrors(events: seq<Event>)
    ensures ErrorKeys(events) == {} <==> forall e :: e in events ==> !e.isError
  {
    if e :| e in events && e.isError {
      assert e.key in ErrorKeys(events);
    }
  }

  /** The row with a page's errors filed; a full page cannot show that nothing was missed. */
  function Remembered(row: Row, events: seq<Event>): Row {
    row.(errorKeys := row.errorKeys + ErrorKeys(events),
         coverageComplete := row.coverageComplete && |events| < PAGE_LIMIT)
  }

  method RememberEvents(row: Row, events: seq<Event>) returns (r: Row)
    ensures r == Remembered(row, events)
    // A key is filed exactly when it was before or an error of the page has it; only a page below the cap shows all.
    ensures forall key :: key in r.errorKeys <==>
              key in row.errorKeys || exists i :: 0 <= i < |events| && events[i].isError && events[i].key == key
    ensures r.coverageComplete <==> row.coverageComplete && |events| < 500
  {
    KeysOfErrors(events);
    r := row;
    if |events| >= PAGE_LIMIT {
      r := r.(coverageComplete := false);
    }
    for n := 0 to |events|
      invariant r == row.(errorKeys := row.errorKeys + ErrorKeys(events[..n]),
                          coverageComplete := row.coverageComplete && |events| < PAGE_LIMIT)
    {
      assert events[..n + 1] == events[..n] + [events[n]];
      assert ErrorKeys(events[..n + 1]) == ErrorKeys(events[..n]) + if events[n].isError then {events[n].key} else {};
      if events[n].isError {
        r := r.(errorKeys := r.errorKeys + {events[n].key});
      }
    }
    assert events[..|events|] == events;
  }

  /** The row with the final artifacts; when pages were full, the ledger's errors, or a note that there is none. */
  function Collected(row: Row, final: Final): Row {
    var taken := row.(observationErrors := row.observationErrors + final.notes, summaryPresent := final.summary,
                      reports := final.reports, modelsPersisted := final.models, modelsMatch := final.match_);
    if row.coverageComplete then taken
    else match final.ledger
      case Some(events) => taken.(errorKeys := taken.errorKeys + ErrorKeys(events), coverageComplete := true)
      case None => taken.(observationErrors := taken.observationErrors + [NO_LEDGER])
  }

  method Finalize(row: Row, final: Final) returns (r: Row)
    ensures r == Collected(row, final)
  {
    r := row.(observationErrors := row.observationErrors + final.notes, summaryPresent := final.summary,
              reports := final.reports, modelsPersisted := final.models, modelsMatch := final.match_);
    if !r.coverageComplete {
      if final.ledger.Some? {
        r := RememberEvents(r, final.ledger.value);
        r := r.(coverageComplete := true);
      } else {
        r := r.(observationErrors := r.observationErrors + [NO_LEDGER]);
      }
    }
  }

  function WithPollFailure(r: Row): Row {
    if POLL_FAILED in r.observationErrors then r else r.(observationErrors := r.observationErrors + [POLL_FAILED])
  }

  function TakenOver(row: Row, snap: Snap): Row {
    Remembered(row.(terminalStatus := Some(snap.status), stages := snap.stages), snap.logs)
  }

  /** One round. "since" is when the scan was first seen terminal; the clock is read
      as "first" to note that, and as "second" to compare with it. */
  function Polled(row: Row, since: Option<real>, poll: Poll, first: real, second: real, settle: real): (Row, Option<real>) {
    match poll
    case SnapshotFailed => (WithPollFailure(row), since)
    case AuditFailed(snap) => (WithPollFailure(TakenOver(row, snap)), since)
    case Answered(snap, audits, final) =>
      var seen := Remembered(TakenOver(row, snap), audits);
      var start := since.GetOr(first);
      if !IsTerminal(snap.status) then (seen, None)
      else if second - start < settle then (seen, Some(start))
      else if final.breaksOff then (WithPollFailure(Collected(seen, final)), Some(start))
      else (Collected(seen, final).(finalized := true), Some(start))
  }

  method PollRow(row: Row, since: Option<real>, poll: Poll, first: real, second: real, settle: real)
    returns (r: Row, s: Option<real>)
    ensures (r, s) == Polled(row, since, poll, first, second, settle)
  {
    r, s := row, since;
    if poll.SnapshotFailed? {
      r := WithPollFailure(r);
      return;
    }
    r := RememberEvents(r.(terminalStatus := Some(poll.snap.status), stages := poll.snap.stages), poll.snap.logs);
    if poll.AuditFailed? {
      r := WithPollFailure(r);
      return;
    }
    r := RememberEvents(r, poll.audits);
    if IsTerminal(poll.snap.status) {
      if s.None? {
        s := Some(first);
      }
      if second - s.value >= settle {
        r := Finalize(r, poll.final);
        if poll.final.breaksOff {
          r := WithPollFailure(r);
        } else {
          r := r.(finalized := true);
        }
      }
    } else {
      s := None;
    }
  }

  // ----- All rounds -----

  /** What the observer meets: the scans to watch, the dashboard's answer by round and scan, and the clock by moment. */
  datatype World = World(ids: seq<string>, settle: real, poll: (nat, nat) -> Poll, clock: nat -> real)

  /** Moments in the order of the program: two for each scan of a round, then one for the deadline. */
  function RoundStart(w: World, round: nat): nat {
    if round == 0 then 1 else RoundStart(w, round - 1) + 2 * |w.ids| + 1
  }

  function RoundEnd(w: World, round: nat): nat {
    RoundStart(w, round) + 2 * |w.ids|
  }

  /** When round "q" would note that scan "i" is terminal, and when it compares. */
  function NotedAt(w: World, i: nat, q: nat): real {
    w.clock(RoundStart(w, q) + 2 * i)
  }

  function ComparedAt(w: World, i: nat, q: nat): real {
    w.clock(RoundStart(w, q) + 2 * i + 1)
  }

  /** Scans are looked at one after the other, and rounds follow each other. */
  lemma {:induction false} MomentsInOrder(w: World, i: nat, q: nat, p: nat)
    requires i < |w.ids| && q <= p
    ensures 0 < RoundStart(w, q) <= RoundStart(w, q) + 2 * i + 1 < RoundEnd(w, q)
    ensures q < p ==> RoundEnd(w, q) < RoundStart(w, p)
  {
    if q == p {
    } else {
      MomentsInOrder(w, i, q, p - 1);
    }
  }

  /** The row of scan "i" after "n" rounds, and since when it has been terminal; a finalized row is left alone. */
  function RowAfter(w: World, i: nat, n: nat): (Row, Option<real>)
    requires i < |w.ids|
  {
    if n == 0 then (NewRow(w.ids[i]), None)
    else
      var (row, since) := RowAfter(w, i, n - 1);
      if row.finalized then (row, since)
      else Polled(row, since, w.poll(n - 1, i), NotedAt(w, i, n - 1), ComparedAt(w, i, n - 1), w.settle)
  }

  function SinceOf(terminalSince: map<string, real>, scanId: string): Option<real> {
    if scanId in terminalSince then Some(terminalSince[scanId]) else None
  }

  predicate DistinctIds(w: World) {
    forall i, j :: 0 <= i < j < |w.ids| ==> w.ids[i] != w.ids[j]
  }

  /** Scan "i" stands where "n" rounds bring it. */
  predicate At(w: World, i: nat, n: nat, rows: seq<Row>, terminalSince: map<string, real>)
    requires i < |w.ids| == |rows|
  {
    (rows[i], SinceOf(terminalSince, w.ids[i])) == RowAfter(w, i, n)
  }

  predicate AllAt(w: World, n: nat, rows: seq<Row>, terminalSince: map<string, real>) {
    |rows| == |w.ids| && forall i :: 0 <= i < |rows| ==> At(w, i, n, rows, terminalSince)
  }

  /** Polls every row that is not finalized. */
  method PollRound(w: World, round: nat, rows: seq<Row>, terminalSince: map<string, real>)
    returns (rows': seq<Row>, since': map<string, real>)
    requires DistinctIds(w) && AllAt(w, round, rows, terminalSince)
    ensures AllAt(w, round + 1, rows', since')
  {
    rows', since' := rows, terminalSince;
    var tick := RoundStart(w, round);
    ghost var next := round + 1;
    for n := 0 to |rows|
      invariant |rows'| == |w.ids| && tick == RoundStart(w, round) + 2 * n
      invariant forall i :: 0 <= i < n ==> At(w, i, next, rows', since')
      invariant forall i :: n <= i < |rows'| ==> At(w, i, round, rows', since')
    {
      ghost var before, known := rows', since';
      assert At(w, n, round, rows', since');
      if !rows'[n].finalized {
        var id := w.ids[n];
        var r, s := PollRow(rows'[n], SinceOf(since', id), w.poll(round, n), w.clock(tick), w.clock(tick + 1), w.settle);
        rows' := rows'[n := r];
        since' := if s.Some? then since'[id := s.value] else since' - {id};
        OthersStay(w, n, before, known, rows', since');
      }
      assert At(w, n, next, rows', since');
      tick := tick + 2;
    }
  }

  lemma OthersStay(w: World, n: nat, rows: seq<Row>, since: map<string, real>, rows': seq<Row>, since': map<string, real>)
    requires DistinctIds(w) && |rows| == |rows'| == |w.ids| && n < |rows|
    requires rows' == rows[n := rows'[n]]
    requires forall id :: id != w.ids[n] ==> SinceOf(since', id) == SinceOf(since, id)
    ensures forall i, m: nat :: 0 <= i < |rows| && i != n ==> (At(w, i, m, rows', since') <==> At(w, i, m, rows, since))
  {
  }

  // ----- What acceptance means, in terms of answers and clock -----

  predicate AnsweredIn(w: World, i: nat, q: nat) {
    w.poll(q, i).Answered?
  }

  predicate TerminalIn(w: World, i: nat, q: nat) {
    w.poll(q, i).Answered? && w.poll(q, i).snap.status in {"completed", "failed", "cancelled"}
  }

  /** Scan "i" was terminal in every round from "k" to "q", and not just before. */
  ghost predicate TerminalFrom(w: World, i: nat, k: nat, q: nat) {
    && k <= q && (forall p :: k <= p <= q ==> TerminalIn(w, i, p))
    && (k > 0 ==> !TerminalIn(w, i, k - 1))
  }

  ghost predicate WaitedFrom(w: World, i: nat, k: nat, q: nat) {
    TerminalFrom(w, i, k, q) && ComparedAt(w, i, q) - NotedAt(w, i, k) >= w.settle
  }

  /** In round "q" the scan has been terminal without a break for the settle period. */
  ghost predicate Settled(w: World, i: nat, q: nat) {
    exists k: nat :: WaitedFrom(w, i, k, q)
  }

  /** All polls before round "n" were answered, and none found the scan settled. */
  ghost predicate Open(w: World, i: nat, n: nat) {
    forall q: nat :: q < n ==> AnsweredIn(w, i, q) && !Settled(w, i, q)
  }

  /** No page of round "q" shows an error. */
  predicate Errorless(w: World, i: nat, q: nat) {
    && w.poll(q, i).Answered? && (forall e :: e in w.poll(q, i).snap.logs ==> !e.isError)
    && (forall e :: e in w.poll(q, i).audits ==> !e.isError)
  }

  /** No page of round "q" is full. */
  predicate Unsaturated(w: World, i: nat, q: nat) {
    w.poll(q, i).Answered? && |w.poll(q, i).snap.logs| < 500 && |w.poll(q, i).audits| < 500
  }

  ghost predicate AllUnsaturated(w: World, i: nat, n: nat) {
    forall q: nat :: q < n ==> Unsaturated(w, i, q)
  }

  ghost predicate AllErrorless(w: World, i: nat, n: nat) {
    forall q: nat :: q < n ==> Errorless(w, i, q)
  }

  /** The artifacts are all there; if some page was full, the whole ledger shows no error. */
  predicate ArtifactsOk(final: Final, unsaturated: bool) {
    && !final.breaksOff && final.notes == [] && (final.summary || final.reports > 0) && final.models && final.match_
    && (!unsaturated ==> final.ledger.Some? && forall e :: e in final.ledger.value ==> !e.isError)
  }

  /** All six stages are completed or skipped, and no stage at all is in any other state the dashboard knows. */
  predicate AllSixDone(stages: map<string, string>) {
    && (forall stage :: stage in {"Scope", "Recon", "Attack", "Chaining", "Validation", "Report"} ==>
          stage in stages && (stages[stage] == "completed" || stages[stage] == "skipped"))
    && (forall stage :: stage in stages ==> stages[stage] !in {"failed", "running", "pending", "cancelled"})
  }

  lemma StagesAreSix(stages: map<string, string>)
    ensures StagesDone(stages) <==> AllSixDone(stages)
  {
    assert |STAGES| == 6;
    assert STAGES[0] == "Scope" && STAGES[1] == "Recon" && STAGES[2] == "Attack" && STAGES[3] == "Chaining";
    assert STAGES[4] == "Validation" && STAGES[5] == "Report";
  }

  /** Round "m" is the first to find the scan settled. It was completed then, every poll up to then was answered,
      no page showed an error, and its artifacts are in order. */
  ghost predicate AcceptedIn(w: World, i: nat, m: nat) {
    && Open(w, i, m) && Settled(w, i, m) && AllErrorless(w, i, m + 1)
    && var poll := w.poll(m, i);
       && poll.Answered? && poll.snap.status == "completed" && AllSixDone(poll.snap.stages)
       && ArtifactsOk(poll.final, AllUnsaturated(w, i, m + 1))
  }

  // ----- Proof -----

  /** Since when the scan has been terminal without a break, after "n" rounds. */
  function RunSince(w: World, i: nat, n: nat): Option<real> {
    if n == 0 || !TerminalIn(w, i, n - 1) then None
    else Some(RunSince(w, i, n - 1).GetOr(NotedAt(w, i, n - 1)))
  }

  lemma {:induction false} RunSinceIsStart(w: World, i: nat, n: nat) returns (k: nat)
    requires n > 0 && TerminalIn(w, i, n - 1)
    ensures TerminalFrom(w, i, k, n - 1) && RunSince(w, i, n) == Some(NotedAt(w, i, k))
  {
    if n > 1 && TerminalIn(w, i, n - 2) {
      k := RunSinceIsStart(w, i, n - 1);
    } else {
      k := n - 1;
    }
  }

  lemma OneStart(w: World, i: nat, j: nat, k: nat, q: nat)
    requires TerminalFrom(w, i, j, q) && TerminalFrom(w, i, k, q)
    ensures j == k
  {
  }

  /** The comparison the code makes decides whether the scan is settled. */
  lemma SettledByComparison(w: World, i: nat, q: nat)
    requires TerminalIn(w, i, q)
    ensures Settled(w, i, q) <==> ComparedAt(w, i, q) - RunSince(w, i, q).GetOr(NotedAt(w, i, q)) >= w.settle
  {
    var k := RunSinceIsStart(w, i, q + 1);
    assert RunSince(w, i, q + 1) == Some(RunSince(w, i, q).GetOr(NotedAt(w, i, q)));
    forall j: nat | WaitedFrom(w, i, j, q)
      ensures j == k
    {
      OneStart(w, i, j, k, q);
    }
    assert WaitedFrom(w, i, k, q) <==> ComparedAt(w, i, q) - NotedAt(w, i, k) >= w.settle;
  }

  /** What an open scan's row holds. */
  ghost predicate OpenRow(w: World, i: nat, n: nat, r: Row, since: Option<real>) {
    && !r.finalized && r.observationErrors == [] && !r.modelsPersisted && since == RunSince(w, i, n)
    && (r.errorKeys == {} <==> AllErrorless(w, i, n)) && (r.coverageComplete <==> AllUnsaturated(w, i, n))
  }

  lemma OneMoreRound(w: World, i: nat, n: nat)
    requires AnsweredIn(w, i, n)
    ensures AllErrorless(w, i, n + 1) <==> AllErrorless(w, i, n) && Errorless(w, i, n)
    ensures AllUnsaturated(w, i, n + 1) <==> AllUnsaturated(w, i, n) && Unsaturated(w, i, n)
  {
  }

  /** A round that leaves the scan open. */
  lemma OpenStep(w: World, i: nat, n: nat, r: Row, since: Option<real>)
    requires OpenRow(w, i, n, r, since) && AnsweredIn(w, i, n) && !Settled(w, i, n)
    ensures var (r', since') := Polled(r, since, w.poll(n, i), NotedAt(w, i, n), ComparedAt(w, i, n), w.settle);
            OpenRow(w, i, n + 1, r', since')
  {
    OneMoreRound(w, i, n);
    NoKeysNoErrors(w.poll(n, i).snap.logs);
    NoKeysNoErrors(w.poll(n, i).audits);
    if TerminalIn(w, i, n) {
      SettledByComparison(w, i, n);
    }
  }

  lemma {:induction false} OpenRowAfter(w: World, i: nat, n: nat)
    requires i < |w.ids| && Open(w, i, n)
    ensures OpenRow(w, i, n, RowAfter(w, i, n).0, RowAfter(w, i, n).1)
  {
    if n == 0 {
    } else {
      OpenRowAfter(w, i, n - 1);
      assert AnsweredIn(w, i, n - 1) && !Settled(w, i, n - 1);
      OpenStep(w, i, n - 1, RowAfter(w, i, n - 1).0, RowAfter(w, i, n - 1).1);
    }
  }

  /** Collecting the artifacts of a row without observation errors decides whether it passes. */
  lemma CollectedPasses(row: Row, final: Final)
    requires row.observationErrors == []
    ensures !final.breaksOff ==>
              (Passed(Collected(row, final).(finalized := true)) <==>
                 && row.terminalStatus == Some("completed") && StagesDone(row.stages) && row.errorKeys == {}
                 && ArtifactsOk(final, row.coverageComplete))
  {
    if final.ledger.Some? {
      NoKeysNoErrors(final.ledger.value);
    }
  }

  /** The round that finds the scan settled. */
  lemma SettledStep(w: World, i: nat, m: nat, r: Row, since: Option<real>)
    requires OpenRow(w, i, m, r, since) && Open(w, i, m) && AnsweredIn(w, i, m) && Settled(w, i, m)
    ensures var r' := Polled(r, since, w.poll(m, i), NotedAt(w, i, m), ComparedAt(w, i, m), w.settle).0;
            && (Passed(r') <==> AcceptedIn(w, i, m))
            && (r'.finalized || r'.observationErrors != [])
  {
    var k: nat :| WaitedFrom(w, i, k, m);
    assert TerminalIn(w, i, m);
    SettledByComparison(w, i, m);
    OneMoreRound(w, i, m);
    var poll := w.poll(m, i);
    var seen := Remembered(TakenOver(r, poll.snap), poll.audits);
    NoKeysNoErrors(poll.snap.logs);
    NoKeysNoErrors(poll.audits);
    CollectedPasses(seen, poll.final);
    StagesAreSix(poll.snap.stages);
    assert seen.coverageComplete <==> AllUnsaturated(w, i, m + 1);
    assert seen.errorKeys == {} <==> AllErrorless(w, i, m + 1);
  }

  /** The round that ends the openness decides. */
  lemma DecidingRound(w: World, i: nat, m: nat)
    requires i < |w.ids| && Open(w, i, m) && !Open(w, i, m + 1)
    ensures var r := RowAfter(w, i, m + 1).0;
            && (Passed(r) <==> AcceptedIn(w, i, m))
            && (r.finalized || r.observationErrors != [])
  {
    OpenRowAfter(w, i, m);
    if AnsweredIn(w, i, m) {
      SettledStep(w, i, m, RowAfter(w, i, m).0, RowAfter(w, i, m).1);
    }
  }

  /** Error events and observation errors only ever grow, and a finalized row stays as it is. */
  predicate Grows(a: Row, b: Row) {
    && b.scanId == a.scanId && a.errorKeys <= b.errorKeys
    && (forall e :: e in a.observationErrors ==> e in b.observationErrors)
    && (a.finalized ==> b == a)
  }

  lemma NotesAdded(row: Row, notes: seq<string>)
    ensures forall e :: e in row.observationErrors ==> e in row.observationErrors + notes
  {
  }

  lemma CollectedGrows(row: Row, final: Final)
    requires !row.finalized
    ensures Grows(row, Collected(row, final)) && !Collected(row, final).finalized
  {
    NotesAdded(row, final.notes);
  }

  lemma FailureGrows(row: Row)
    requires !row.finalized
    ensures Grows(row, WithPollFailure(row))
  {
  }

  lemma PolledGrows(row: Row, since: Option<real>, poll: Poll, first: real, second: real, settle: real)
    requires !row.finalized
    ensures Grows(row, Polled(row, since, poll, first, second, settle).0)
  {
    match poll {
      case SnapshotFailed =>
        FailureGrows(row);
      case AuditFailed(snap) =>
        FailureGrows(TakenOver(row, snap));
      case Answered(snap, audits, final) =>
        var seen := Remembered(TakenOver(row, snap), audits);
        CollectedGrows(seen, final);
        FailureGrows(Collected(seen, final));
    }
  }

  lemma {:induction false} RowGrows(w: World, i: nat, a: nat, b: nat)
    requires i < |w.ids| && a <= b
    ensures Grows(RowAfter(w, i, a).0, RowAfter(w, i, b).0)
  {
    if a == b {
    } else {
      RowGrows(w, i, a, b - 1);
      var (row, since) := RowAfter(w, i, b - 1);
      if !row.finalized {
        PolledGrows(row, since, w.poll(b - 1, i), NotedAt(w, i, b - 1), ComparedAt(w, i, b - 1), w.settle);
      }
    }
  }

  /** A finalized or failed row keeps its verdict. */
  lemma VerdictKept(a: Row, b: Row)
    requires Grows(a, b) && (a.finalized || a.observationErrors != [])
    ensures (Passed(a) <==> Passed(b)) && (Passed(b) ==> b.finalized)
  {
    if !a.finalized {
      assert a.observationErrors[0] in b.observationErrors;
    }
  }

  lemma {:induction false} FirstClosed(w: World, i: nat, n: nat) returns (m: nat)
    requires !Open(w, i, n)
    ensures m < n && Open(w, i, m) && !Open(w, i, m + 1)
  {
    if Open(w, i, n - 1) {
      m := n - 1;
    } else {
      m := FirstClosed(w, i, n - 1);
    }
  }

  /** Accepted in one of the first "n" rounds. */
  ghost predicate AcceptedWithin(w: World, i: nat, n: nat) {
    exists m: nat :: m < n && AcceptedIn(w, i, m)
  }

  lemma OpenBefore(w: World, i: nat, a: nat, b: nat)
    ensures a <= b && Open(w, i, b) ==> Open(w, i, a)
  {
  }

  lemma OpenIsNotAccepted(w: World, i: nat, n: nat)
    requires Open(w, i, n)
    ensures !AcceptedWithin(w, i, n)
  {
  }

  lemma AcceptedWhenDecided(w: World, i: nat, m: nat, n: nat)
    requires Open(w, i, m) && !Open(w, i, m + 1) && m < n
    ensures AcceptedWithin(w, i, n) <==> AcceptedIn(w, i, m)
  {
    forall k: nat | AcceptedIn(w, i, k)
      ensures k == m
    {
      OpenBefore(w, i, m + 1, k);
      assert k < m ==> AnsweredIn(w, i, k) && !Settled(w, i, k);
    }
  }

  /** A row passes exactly when some round was the first to find its scan settled, and that round and all before
      it were in order: no failed poll, no error on any page, no relapse during the settle period. */
  lemma PassesExactlyWhen(w: World, i: nat, n: nat)
    requires i < |w.ids|
    ensures Passed(RowAfter(w, i, n).0) <==> AcceptedWithin(w, i, n)
    ensures Passed(RowAfter(w, i, n).0) ==> RowAfter(w, i, n).0.finalized
  {
    if Open(w, i, n) {
      OpenRowAfter(w, i, n);
      OpenIsNotAccepted(w, i, n);
    } else {
      var m := FirstClosed(w, i, n);
      DecidingRound(w, i, m);
      RowGrows(w, i, m + 1, n);
      VerdictKept(RowAfter(w, i, m + 1).0, RowAfter(w, i, n).0);
      AcceptedWhenDecided(w, i, m, n);
    }
  }

  /** An accepted scan was answered as terminal in every round of an interval that lasted the settle period;
      every round up to its end was answered and no page of it held an error. */
  lemma AcceptedScansWaited(w: World, i: nat, n: nat) returns (k: nat, m: nat)
    requires i < |w.ids| && Passed(RowAfter(w, i, n).0)
    ensures k <= m < n && ComparedAt(w, i, m) - NotedAt(w, i, k) >= w.settle
    ensures forall q :: 0 <= q <= m ==>
              && w.poll(q, i).Answered?
              && (forall e :: e in w.poll(q, i).snap.logs + w.poll(q, i).audits ==> !e.isError)
              && (k <= q ==> w.poll(q, i).snap.status in {"completed", "failed", "cancelled"})
    ensures w.poll(m, i).snap.status == "completed"
    ensures (exists q :: 0 <= q <= m && (|w.poll(q, i).snap.logs| >= 500 || |w.poll(q, i).audits| >= 500)) ==>
              w.poll(m, i).final.ledger.Some? && forall e :: e in w.poll(m, i).final.ledger.value ==> !e.isError
  {
    PassesExactlyWhen(w, i, n);
    m :| m < n && AcceptedIn(w, i, m);
    k :| WaitedFrom(w, i, k, m);
    forall q | 0 <= q <= m
      ensures w.poll(q, i).Answered?
      ensures forall e :: e in w.poll(q, i).snap.logs + w.poll(q, i).audits ==> !e.isError
      ensures k <= q ==> w.poll(q, i).snap.status in {"completed", "failed", "cancelled"}
    {
      assert Errorless(w, i, q);
      assert k <= q ==> TerminalIn(w, i, q);
    }
    if q: int :| 0 <= q <= m && (|w.poll(q, i).snap.logs| >= 500 || |w.poll(q, i).audits| >= 500) {
      assert !Unsaturated(w, i, q);
    }
  }

  // ----- The document -----

  datatype Document = Document(rows: seq<Row>, passed: bool)

  /** Ten to twenty distinct scans, every one passed. */
  predicate Acceptable(rows: seq<Row>) {
    && 10 <= |rows| <= 20 && (forall i, j :: 0 <= i < j < |rows| ==> rows[i].scanId != rows[j].scanId)
    && forall i :: 0 <= i < |rows| ==> Passed(rows[i])
  }

  /** Finalized rows stay as they are; open ones get the deadline error. */
  function Expired(a: Row): Row {
    if a.finalized then a else a.(observationErrors := a.observationErrors + [DEADLINE])
  }

  /** Past the deadline every row still open gets an error. */
  method MarkExpired(rows: seq<Row>) returns (rows': seq<Row>)
    ensures |rows'| == |rows| && forall i :: 0 <= i < |rows| ==> rows'[i] == Expired(rows[i])
    ensures forall i :: 0 <= i < |rows| ==>
              rows'[i] == if rows[i].finalized then rows[i]
                          else rows[i].(observationErrors := rows[i].observationErrors + ["observation deadline reached"])
  {
    rows' := rows;
    for n := 0 to |rows|
      invariant |rows'| == |rows|
      invariant forall i :: 0 <= i < n ==> rows'[i] == Expired(rows[i])
      invariant forall i :: n <= i < |rows| ==> rows'[i] == rows[i]
    {
      if !rows'[n].finalized {
        rows' := rows'[n := rows'[n].(observationErrors := rows'[n].observationErrors + [DEADLINE])];
      }
    }
  }

  /** The rows written after "n" rounds, past the deadline with an error for each open one. */
  ghost predicate Shown(w: World, n: nat, expired: bool, rows: seq<Row>) {
    |rows| == |w.ids| && forall i :: 0 <= i < |rows| ==> IsShown(RowAfter(w, i, n).0, expired, rows[i])
  }

  predicate IsShown(row: Row, expired: bool, shown: Row) {
    if expired && !row.finalized then
      shown == row.(observationErrors := row.observationErrors + ["observation deadline reached"])
    else shown == row
  }

  lemma AllShown(w: World, n: nat, rows: seq<Row>, terminalSince: map<string, real>)
    requires AllAt(w, n, rows, terminalSince)
    ensures Shown(w, n, false, rows)
  {
    forall i | 0 <= i < |rows|
      ensures rows[i] == RowAfter(w, i, n).0
    {
      assert At(w, i, n, rows, terminalSince);
    }
  }

  predicate AllFinalized(rows: seq<Row>) {
    forall i :: 0 <= i < |rows| ==> rows[i].finalized
  }

  lemma ExpiredPasses(r: Row)
    requires Passed(r) ==> r.finalized
    ensures Expired(r).scanId == r.scanId && (Passed(Expired(r)) <==> Passed(r))
  {
  }

  /** The deadline decides nothing else: a document is acceptable exactly when its ten to twenty scans are. */
  lemma AcceptableExactlyWhen(w: World, n: nat, expired: bool, rows: seq<Row>)
    requires DistinctIds(w) && Shown(w, n, expired, rows)
    ensures Acceptable(rows) <==> 10 <= |w.ids| <= 20 && forall i :: 0 <= i < |w.ids| ==> AcceptedWithin(w, i, n)
  {
    forall i | 0 <= i < |rows|
      ensures rows[i].scanId == w.ids[i] && (Passed(rows[i]) <==> AcceptedWithin(w, i, n))
    {
      RowGrows(w, i, 0, n);
      PassesExactlyWhen(w, i, n);
      ExpiredPasses(RowAfter(w, i, n).0);
    }
  }

  predicate Tainted(r: Row) {
    r.errorKeys != {} || r.observationErrors != []
  }

  lemma TaintStays(a: Row, b: Row)
    requires Grows(a, b) && Tainted(a)
    ensures !Passed(b) && !Passed(Expired(b))
  {
    if a.observationErrors != [] {
      assert a.observationErrors[0] in b.observationErrors;
    }
  }

  /** A scan that ever had an error, its own or one of observing it, is in no acceptable later document. */
  lemma ErrorsNeverForgiven(w: World, i: nat, a: nat, b: nat, expired: bool, rows: seq<Row>)
    requires i < |w.ids| && a <= b && Tainted(RowAfter(w, i, a).0) && Shown(w, b, expired, rows)
    ensures !Passed(rows[i]) && !Acceptable(rows)
  {
    RowGrows(w, i, a, b);
    TaintStays(RowAfter(w, i, a).0, RowAfter(w, i, b).0);
  }

  /** Time moves on and reaches the deadline. */
  ghost predicate ReachesDeadline(w: World, timeout: real, limit: nat) {
    && (forall t: nat, u: nat :: t <= u ==> w.clock(t) <= w.clock(u))
    && w.clock(limit) >= w.clock(0) + timeout
  }

  /** After "n" rounds the observer goes on. */
  ghost predicate GoesOn(w: World, timeout: real, n: nat)
    requires n > 0
  {
    && w.clock(RoundEnd(w, n - 1)) < w.clock(0) + timeout
    && exists i :: 0 <= i < |w.ids| && !RowAfter(w, i, n).0.finalized
  }

  /** Assesses the rows of a round into a document, past the deadline with an error for each open one. */
  method Write(w: World, rounds: nat, expired: bool, rows: seq<Row>) returns (document: Document)
    requires DistinctIds(w) && Shown(w, rounds, false, rows)
    ensures Shown(w, rounds, expired, document.rows) && (!expired ==> document.rows == rows)
    ensures document.passed <==>
              10 <= |w.ids| <= 20 && forall i :: 0 <= i < |w.ids| ==> AcceptedWithin(w, i, rounds)
  {
    var shown := rows;
    if expired {
      shown := MarkExpired(shown);
    }
    AcceptableExactlyWhen(w, rounds, expired, shown);
    document := Document(shown, Acceptable(shown));
  }

  /** Polls in rounds until every scan is finalized or the deadline has passed. */
  method Observe(w: World, timeout: real, ghost limit: nat) returns (document: Document, rounds: nat, expired: bool)
    requires DistinctIds(w) && ReachesDeadline(w, timeout, limit)
    ensures rounds > 0 && expired == (w.clock(RoundEnd(w, rounds - 1)) >= w.clock(0) + timeout)
    ensures Shown(w, rounds, expired, document.rows) && (expired || AllFinalized(document.rows))
    ensures forall n :: 0 < n < rounds ==> GoesOn(w, timeout, n)
    // Acceptance, in terms of answers and clock.
    ensures document.passed <==>
              10 <= |w.ids| <= 20 && forall i :: 0 <= i < |w.ids| ==> AcceptedWithin(w, i, rounds)
  {
    var rows := seq(|w.ids|, i requires 0 <= i < |w.ids| => NewRow(w.ids[i]));
    var terminalSince: map<string, real> := map[];
    var deadline := w.clock(0) + timeout;
    rounds := 0;
    while true
      invariant AllAt(w, rounds, rows, terminalSince)
      invariant forall n :: 0 < n <= rounds ==> GoesOn(w, timeout, n)
      decreases if RoundStart(w, rounds) <= limit then limit - RoundStart(w, rounds) + 1 else 0
    {
      rows, terminalSince := PollRound(w, rounds, rows, terminalSince);
      expired := w.clock(RoundEnd(w, rounds)) >= deadline;
      rounds := rounds + 1;
      AllShown(w, rounds, rows, terminalSince);
      document := Write(w, rounds, expired, rows);
      if expired || AllFinalized(document.rows) {
        return;
      }
    }
  }
}
