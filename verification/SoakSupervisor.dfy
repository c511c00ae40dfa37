/** The sequential-scan supervisor (scripts/run_dashboard_soak.py): an append-only
    file of launched ids, a saved result table, and a loop that evaluates,
    re-validates and launches until enough scans have passed.  Every write to disk
    is recorded, so that what holds of each write holds after a crash anywhere. */
module SoakSupervisor {
  import opened Options
  import opened Orders

  // ----- What is on disk -----

  datatype Row = Row(scanId: string, passed: bool)
  datatype Status = Running | StoppedOnFailure | Completed | SupervisorError
  datatype Saved = Saved(runs: seq<Row>, status: Option<Status>)
  datatype Disk = Disk(ids: seq<string>, saved: Option<Saved>)

  /** The result table a list of rows stands for; a later row of the same id wins. */
  function Table(rows: seq<Row>): map<string, bool> {
    if rows == [] then map[]
    else Table(rows[..|rows| - 1])[rows[|rows| - 1].scanId := rows[|rows| - 1].passed]
  }

  /** Row "i" is the last one of its id. */
  ghost predicate LastRow(rows: seq<Row>, id: string, i: nat) {
    i < |rows| && rows[i].scanId == id && forall j: nat :: i < j < |rows| ==> rows[j].scanId != id
  }

  ghost predicate LastSays(rows: seq<Row>, id: string, passed: bool) {
    exists i: nat :: LastRow(rows, id, i) && rows[i].passed == passed
  }

  lemma LastOfPrefix(rows: seq<Row>, id: string, i: nat)
    requires rows != [] && rows[|rows| - 1].scanId != id
    ensures LastRow(rows, id, i) <==> LastRow(rows[..|rows| - 1], id, i)
  {
    assert forall j: nat :: j < |rows| - 1 ==> rows[..|rows| - 1][j] == rows[j];
  }

  /** The table holds the last row of each id. */
  lemma {:induction false} TableIsLast(rows: seq<Row>, id: string, passed: bool)
    ensures id in Table(rows) && Table(rows)[id] == passed <==> LastSays(rows, id, passed)
  {
    if rows == [] {
    } else {
      var k := |rows| - 1;
      TableIsLast(rows[..k], id, passed);
      if rows[k].scanId == id {
        assert LastRow(rows, id, k);
        assert forall i: nat :: LastRow(rows, id, i) ==> i == k;
      } else {
        forall i: nat
          ensures LastRow(rows, id, i) <==> LastRow(rows[..k], id, i)
        {
          LastOfPrefix(rows, id, i);
        }
        assert LastSays(rows, id, passed) <==> LastSays(rows[..k], id, passed);
      }
    }
  }

  function DiskTable(d: Disk): map<string, bool> {
    if d.saved.None? then map[] else Table(d.saved.value.runs)
  }

  function Restrict(t: map<string, bool>, ids: seq<string>): map<string, bool> {
    map k | k in t && k in ids :: t[k]
  }

  /** The rows of "t" for the ids of a list, in the list's order. */
  function RowsFor(ids: seq<string>, t: map<string, bool>): seq<Row> {
    if ids == [] then []
    else
      var k := |ids| - 1;
      RowsFor(ids[..k], t) + if ids[k] in t then [Row(ids[k], t[ids[k]])] else []
  }

  lemma TableOneMore(rows: seq<Row>, row: Row)
    ensures Table(rows + [row]) == Table(rows)[row.scanId := row.passed]
  {
    assert (rows + [row])[..|rows|] == rows;
  }

  lemma RestrictOneMore(t: map<string, bool>, ids: seq<string>, id: string)
    ensures id in t ==> Restrict(t, ids + [id]) == Restrict(t, ids)[id := t[id]]
    ensures id !in t ==> Restrict(t, ids + [id]) == Restrict(t, ids)
  {
  }

  lemma {:induction false} RowsForTable(ids: seq<string>, t: map<string, bool>)
    ensures Table(RowsFor(ids, t)) == Restrict(t, ids)
  {
    if ids == [] {
    } else {
      var k := |ids| - 1;
      RowsForTable(ids[..k], t);
      RestrictOneMore(t, ids[..k], ids[k]);
      assert ids == ids[..k] + [ids[k]];
      if ids[k] in t {
        TableOneMore(RowsFor(ids[..k], t), Row(ids[k], t[ids[k]]));
      } else {
        assert RowsFor(ids, t) == RowsFor(ids[..k], t);
      }
    }
  }

  lemma RestrictByElems(t: map<string, bool>, a: seq<string>, b: seq<string>)
    requires Elems(a) == Elems(b)
    ensures Restrict(t, a) == Restrict(t, b)
  {
    assert forall x :: x in a <==> x in Elems(a);
    assert forall x :: x in b <==> x in Elems(b);
  }

  /** The rows written for the noted ids stand for the noted part of the table. */
  lemma NotedRows(t: map<string, bool>, ids: seq<string>)
    ensures Table(RowsFor(Distinct(ids), t)) == Restrict(t, ids)
  {
    RowsForTable(Distinct(ids), t);
    DistinctElems(ids);
    RestrictByElems(t, Distinct(ids), ids);
  }

  /** Launched ids without a result on disk. */
  function Unrecorded(d: Disk): set<string> {
    set x | x in d.ids && x !in DiskTable(d)
  }

  // ----- Legal writes, and what any chain of them keeps -----

  /** Only the status changes. */
  ghost predicate Marked(a: Disk, b: Disk) {
    b.ids == a.ids && DiskTable(b) == DiskTable(a)
  }

  /** A launch is noted; every id noted before has a result on disk. */
  ghost predicate Launched(a: Disk, b: Disk) {
    Unrecorded(a) == {} && b.saved == a.saved && exists id :: b.ids == a.ids + [id]
  }

  /** The table now holds the old results of the noted ids, and the result of one of them. */
  ghost predicate EvaluatedAs(a: Disk, b: Disk, id: string, passed: bool) {
    b.ids == a.ids && id in a.ids && DiskTable(b) == Restrict(DiskTable(a), a.ids)[id := passed]
  }

  ghost predicate Evaluated(a: Disk, b: Disk) {
    exists id, passed :: EvaluatedAs(a, b, id, passed)
  }

  /** Results that name no noted id are dropped. */
  ghost predicate Trimmed(a: Disk, b: Disk) {
    b.ids == a.ids && DiskTable(b) == Restrict(DiskTable(a), a.ids)
  }

  ghost predicate LegalWrite(a: Disk, b: Disk) {
    Marked(a, b) || Launched(a, b) || Evaluated(a, b) || Trimmed(a, b)
  }

  ghost predicate Chain(ds: seq<Disk>) {
    ds != [] && forall i :: 0 < i < |ds| ==> LegalWrite(ds[i - 1], ds[i])
  }

  lemma WriteKeeps(a: Disk, b: Disk)
    requires LegalWrite(a, b) && |Unrecorded(a)| <= 1
    ensures |Unrecorded(b)| <= 1
    ensures b.ids != a.ids ==> Unrecorded(a) == {}
  {
    if Launched(a, b) {
      var id :| b.ids == a.ids + [id];
      assert Unrecorded(b) <= {id};
      SubsetSize(Unrecorded(b), {id});
    } else {
      assert Unrecorded(b) <= Unrecorded(a);
      SubsetSize(Unrecorded(b), Unrecorded(a));
    }
  }

  /** Along a chain of writes the disk never holds two launched scans without a result,
      and no scan is launched while one has none. */
  lemma {:induction false} AtMostOneUnrecorded(ds: seq<Disk>, i: nat)
    requires Chain(ds) && |Unrecorded(ds[0])| <= 1 && i < |ds|
    ensures |Unrecorded(ds[i])| <= 1
    ensures i > 0 && ds[i].ids != ds[i - 1].ids ==> Unrecorded(ds[i - 1]) == {}
  {
    if i == 0 {
    } else {
      AtMostOneUnrecorded(ds, i - 1);
      WriteKeeps(ds[i - 1], ds[i]);
    }
  }

  /** A crash leaves some prefix of a run's writes. */
  lemma ChainPrefix(ds: seq<Disk>, cut: nat)
    requires Chain(ds) && 0 < cut <= |ds|
    ensures Chain(ds[..cut])
  {
  }

  /** Run "i" would make the writes runs[i] and got as far as the first cuts[i] of them, all of them if it did
      not crash; the next run starts from the disk this left. */
  ghost predicate Restarts(runs: seq<seq<Disk>>, cuts: seq<nat>) {
    && runs != [] && |cuts| == |runs|
    && (forall i :: 0 <= i < |runs| ==> Chain(runs[i]) && 0 < cuts[i] <= |runs[i]|)
    && (forall i :: 0 < i < |runs| ==> StartsWhereCut(runs, cuts, i))
  }

  ghost predicate StartsWhereCut(runs: seq<seq<Disk>>, cuts: seq<nat>, i: nat)
    requires 0 < i < |runs| == |cuts|
  {
    runs[i] != [] && 0 < cuts[i - 1] <= |runs[i - 1]| && runs[i][0] == runs[i - 1][cuts[i - 1] - 1]
  }

  /** Started with every id recorded, wherever runs crash and are started again, every disk they leave behind
      has at most one launched scan without a result, and a launch happens only when there is none. */
  lemma {:induction false} AcrossRestarts(runs: seq<seq<Disk>>, cuts: seq<nat>, i: nat, j: nat)
    requires Restarts(runs, cuts) && Unrecorded(runs[0][0]) == {} && i < |runs| && j < cuts[i]
    ensures |Unrecorded(runs[i][j])| <= 1
    ensures j > 0 && runs[i][j].ids != runs[i][j - 1].ids ==> Unrecorded(runs[i][j - 1]) == {}
  {
    if i == 0 {
    } else {
      AcrossRestarts(runs, cuts, i - 1, cuts[i - 1] - 1);
      assert StartsWhereCut(runs, cuts, i);
    }
    var made := runs[i][..cuts[i]];
    ChainPrefix(runs[i], cuts[i]);
    AtMostOneUnrecorded(made, j);
    assert made[j] == runs[i][j] && (j > 0 ==> made[j - 1] == runs[i][j - 1]);
  }

  // ----- The dashboard -----

  datatype Answer = InProgress | Terminal(passed: bool)

  /** What the server answers to the call made at each moment, and a moment by which each scan has ended. */
  datatype Dashboard = Dashboard(launchId: nat -> string, answer: (nat, string) -> Answer, endsBy: (nat, string) -> nat)

  ghost predicate EndsBy(dash: Dashboard, now: nat, due: nat, id: string) {
    due >= now && dash.answer(due, id).Terminal?
  }

  /** Every scan is terminal sooner or later. */
  ghost predicate EventuallyTerminal(dash: Dashboard) {
    forall t: nat, id: string :: EndsBy(dash, t, dash.endsBy(t, id), id)
  }

  /** Ids launched from now on are new and pairwise distinct. */
  ghost predicate FreshIds(dash: Dashboard, now: nat, known: set<string>) {
    && (forall t: nat :: t >= now ==> dash.launchId(t) !in known)
    && (forall t: nat, u: nat :: now <= t < u ==> dash.launchId(t) != dash.launchId(u))
  }

  // ----- Counting -----

  function Passed(t: map<string, bool>): set<string> {
    set k | k in t && t[k]
  }

  function ToEvaluate(pending: seq<string>, t: map<string, bool>): set<string> {
    set x | x in pending && x !in t
  }

  function ToRevalidate(pending: seq<string>, t: map<string, bool>): set<string> {
    set x | x in pending && x in t && t[x]
  }

  /** Twice the unrecorded pending ids, the passed ones still to be re-validated, and the passes still missing. */
  function Work(total: nat, pending: seq<string>, current: Option<string>, t: map<string, bool>): nat {
    2 * |ToEvaluate(pending, t)| + |ToRevalidate(pending, t)|
    + (if current.Some? && current.value in t then 1 else 0) + Missing(total, t)
  }

  function Missing(total: nat, t: map<string, bool>): nat {
    if |Passed(t)| < total then total - |Passed(t)| else 0
  }

  /** A passing result is progress: of a new scan, of a pending one without a result, and of a re-validated one. */
  lemma PassOfNew(pending: seq<string>, c: string, t: map<string, bool>)
    requires c !in t
    ensures Passed(t[c := true]) == Passed(t) + {c}
    ensures c !in pending ==>
              ToEvaluate(pending, t[c := true]) == ToEvaluate(pending, t) &&
              ToRevalidate(pending, t[c := true]) == ToRevalidate(pending, t)
    ensures c in pending ==>
              ToEvaluate(pending, t[c := true]) == ToEvaluate(pending, t) - {c} &&
              ToRevalidate(pending, t[c := true]) == ToRevalidate(pending, t) + {c}
  {
  }

  lemma PassOfPending(pending: seq<string>, c: string, t: map<string, bool>)
    requires c !in t && c in pending
    ensures |ToEvaluate(pending, t[c := true])| == |ToEvaluate(pending, t)| - 1
    ensures |ToRevalidate(pending, t[c := true])| == |ToRevalidate(pending, t)| + 1
  {
    PassOfNew(pending, c, t);
    var e, r := ToEvaluate(pending, t), ToRevalidate(pending, t);
    assert c in e && c !in r;
    assert |e - {c}| == |e| - 1 && |r + {c}| == |r| + 1;
  }

  lemma OneMorePass(c: string, t: map<string, bool>)
    requires c !in t
    ensures |Passed(t[c := true])| == |Passed(t)| + 1
  {
    PassOfNew([], c, t);
    assert |Passed(t) + {c}| == |Passed(t)| + 1;
  }

  lemma PassIsProgress(total: nat, pending: seq<string>, c: string, t: map<string, bool>)
    requires (c in t ==> t[c]) && |Passed(t)| < total
    ensures Work(total, pending, None, t[c := true]) < Work(total, pending, Some(c), t)
    ensures |Passed(t[c := true])| == |Passed(t)| + if c in t then 0 else 1
  {
    if c in t {
      assert t[c := true] == t;
    } else {
      OneMorePass(c, t);
      if c in pending {
        PassOfPending(pending, c, t);
      } else {
        PassOfNew(pending, c, t);
      }
    }
  }

  function Without(pending: seq<string>, c: string): seq<string> {
    if pending == [] then []
    else if pending[0] == c then Without(pending[1..], c)
    else [pending[0]] + Without(pending[1..], c)
  }

  lemma {:induction false} WithoutMembers(pending: seq<string>, c: string)
    ensures forall x :: x in Without(pending, c) <==> x in pending && x != c
  {
    if pending == [] {
    } else {
      assert pending == [pending[0]] + pending[1..];
      WithoutMembers(pending[1..], c);
    }
  }

  lemma PickKeepsWork(total: nat, pending: seq<string>, c: string, t: map<string, bool>)
    requires c in pending && c in t && t[c]
    ensures Work(total, Without(pending, c), Some(c), t) == Work(total, pending, None, t)
  {
    WithoutMembers(pending, c);
    assert ToEvaluate(Without(pending, c), t) == ToEvaluate(pending, t);
    assert ToRevalidate(Without(pending, c), t) == ToRevalidate(pending, t) - {c};
  }

  // ----- The supervisor -----

  /** The supervisor's persistent state and counters at one moment. "writes" lists what the disk held at the
      start of the current run and after each of its writes, "times" how many calls had been made by then. */
  datatype Machine = Machine(disk: Disk, clock: nat, launches: nat, writes: seq<Disk>, times: seq<nat>)

  /** Where a run began. */
  datatype Origin = Origin(disk: Disk, launches: nat, clock: nat)

  ghost predicate Logged(m: Machine) {
    Chain(m.writes) && m.writes[|m.writes| - 1] == m.disk
  }

  function Written(m: Machine, next: Disk): Machine {
    m.(disk := next, writes := m.writes + [next], times := m.times + [m.clock])
  }

  lemma LogWrite(m: Machine, next: Disk)
    requires Logged(m) && LegalWrite(m.disk, next)
    ensures Logged(Written(m, next))
  {
  }

  /** Memory holds every result on disk, and the two agree on the noted ids. */
  ghost predicate InStep(d: Disk, existing: map<string, bool>) {
    var t := DiskTable(d);
    t.Keys <= existing.Keys && forall x :: x in d.ids ==> (x in existing <==> x in t) && (x in t ==> existing[x] == t[x])
  }

  /** Each noted id is still to be looked at, has a result, or is the one being watched. */
  ghost predicate Covered(ids: seq<string>, pending: seq<string>, current: Option<string>, existing: map<string, bool>) {
    && (forall x :: x in pending ==> x in ids)
    && (current.Some? ==> current.value in ids)
    && (forall x :: x in ids ==> x in pending || x in existing || current == Some(x))
  }

  ghost predicate MarkedAs(d: Disk, status: Status) {
    d.saved.Some? && d.saved.value.status == Some(status)
  }

  /** No more launches than passes were missing when the run began. */
  ghost predicate LaunchBound(total: nat, o: Origin, launches: nat) {
    o.launches <= launches && (launches > o.launches ==> launches - o.launches + |Passed(DiskTable(o.disk))| <= total)
  }

  /** Every launch but the one still being watched has brought a pass. */
  ghost predicate LaunchesPaid(o: Origin, launches: nat, watching: bool, existing: map<string, bool>) {
    |Passed(DiskTable(o.disk))| + launches - o.launches <= |Passed(existing)| + (if watching then 1 else 0)
  }

  /** Results that name no noted id are neither touched nor taken over by a launch, and passes only
      accumulate, up to "total" or to what the run found. */
  ghost predicate StrayKept(total: nat, d0: Disk, ids: seq<string>, existing: map<string, bool>) {
    var t0 := DiskTable(d0);
    && (forall x :: x in ids && x in t0 ==> x in d0.ids)
    && (forall x :: x !in ids ==> (x in existing <==> x in t0) && (x in t0 ==> existing[x] == t0[x]))
    && |Passed(t0)| <= |Passed(existing)| && (|Passed(existing)| <= total || |Passed(existing)| <= |Passed(t0)|)
  }

  /** Noted or not, the ids with a failing result. */
  function Failing(d: Disk): set<string> {
    set x | x in DiskTable(d) && !DiskTable(d)[x]
  }

  ghost predicate FailuresKept(d: Disk, existing: map<string, bool>) {
    forall x :: x in Failing(d) ==> x in existing && !existing[x]
  }

  /** Since the run started, every disk was marked as running, and no failing result was taken back. */
  ghost predicate History(writes: seq<Disk>, existing: map<string, bool>) {
    && (forall k :: 0 <= k < |writes| ==> FailuresKept(writes[k], existing))
    && (forall k :: 0 < k < |writes| ==> MarkedAs(writes[k], Running))
  }

  /** The local variables of the loop. */
  datatype Locals = Locals(pending: seq<string>, current: Option<string>, existing: map<string, bool>)

  // ----- Writes and answers -----

  /** Some call from "from" on and before "to" reported that "id" had ended so. */
  ghost predicate AnsweredDuring(dash: Dashboard, from: nat, to: nat, id: string, passed: bool) {
    exists t: nat :: from <= t < to && dash.answer(t, id) == Terminal(passed)
  }

  /** Every noted scan that had passed on disk "first" was reported as passed again since "from" and before "to". */
  ghost predicate Rechecked(dash: Dashboard, first: Disk, from: nat, to: nat) {
    forall id :: id in first.ids && id in Passed(DiskTable(first)) ==> AnsweredDuring(dash, from, to, id, true)
  }

  /** Call "moment" reported that "id" had ended so, and that result is what was written. A scan that has a result
      already is asked about only when no noted scan lacks one. */
  ghost predicate AnsweredAs(dash: Dashboard, a: Disk, b: Disk, moment: nat, id: string, passed: bool) {
    && dash.answer(moment, id) == Terminal(passed) && EvaluatedAs(a, b, id, passed)
    && (id in DiskTable(a) ==> Unrecorded(a) == {})
  }

  /** The write of a run that began on disk "first" at "from" notes the scan that call "moment" launched, after all
      earlier passes were checked again, or stores the result that call reported. */
  ghost predicate CalledFor(dash: Dashboard, first: Disk, from: nat, a: Disk, b: Disk, moment: nat) {
    || (b == a.(ids := a.ids + [dash.launchId(moment)]) && Rechecked(dash, first, from, moment))
    || exists id, passed :: AnsweredAs(dash, a, b, moment, id, passed)
  }

  /** Write "k" is due to the last call before it, which was made after write "k" - 1. */
  ghost predicate DueToCall(dash: Dashboard, writes: seq<Disk>, times: seq<nat>, k: nat)
    requires 0 < k < |writes| == |times|
  {
    times[k - 1] < times[k] && CalledFor(dash, writes[0], times[0], writes[k - 1], writes[k], times[k] - 1)
  }

  /** Begun at "from" with the running mark, and since then every write was due to a call of its own. */
  ghost predicate Timed(dash: Dashboard, from: nat, writes: seq<Disk>, times: seq<nat>) {
    && |writes| == |times| >= 2 && times[0] == times[1] == from && Marked(writes[0], writes[1])
    && forall k :: 1 < k < |writes| ==> DueToCall(dash, writes, times, k)
  }

  lemma TimedOneMore(dash: Dashboard, from: nat, writes: seq<Disk>, times: seq<nat>, next: Disk, now: nat)
    requires Timed(dash, from, writes, times) && times[|times| - 1] < now
    requires CalledFor(dash, writes[0], from, writes[|writes| - 1], next, now - 1)
    ensures Timed(dash, from, writes + [next], times + [now])
  {
    var w, t := writes + [next], times + [now];
    forall k | 1 < k < |w|
      ensures DueToCall(dash, w, t, k)
    {
      if k < |writes| {
        assert DueToCall(dash, writes, times, k);
        assert w[k] == writes[k] && w[k - 1] == writes[k - 1] && t[k] == times[k] && t[k - 1] == times[k - 1];
      }
    }
  }

  /** Every result on any disk of a run was there at its start, or was reported by a call of the run before that write. */
  lemma {:induction false} ResultsAnswered(dash: Dashboard, from: nat, writes: seq<Disk>, times: seq<nat>, k: nat, id: string)
    requires Timed(dash, from, writes, times) && k < |writes| && id in DiskTable(writes[k])
    ensures from <= times[k]
    ensures var passed := DiskTable(writes[k])[id];
            || (id in DiskTable(writes[0]) && DiskTable(writes[0])[id] == passed)
            || AnsweredDuring(dash, from, times[k], id, passed)
    decreases k
  {
    if k <= 1 {
    } else {
      assert DueToCall(dash, writes, times, k);
      TimesFrom(dash, from, writes, times, k);
      var a, b, t := writes[k - 1], writes[k], times[k] - 1;
      if DiskTable(b) == DiskTable(a) {
        ResultsAnswered(dash, from, writes, times, k - 1, id);
      } else {
        var c, passed :| AnsweredAs(dash, a, b, t, c, passed);
        if id != c {
          ResultsAnswered(dash, from, writes, times, k - 1, id);
        }
      }
    }
  }

  /** A scan is launched by the call just before it is noted, and by then the dashboard has reported every noted scan
      that had passed at the start as passed again. */
  lemma RecheckedBeforeLaunch(dash: Dashboard, from: nat, writes: seq<Disk>, times: seq<nat>, k: nat, id: string)
    requires Timed(dash, from, writes, times) && 1 < k < |writes| && writes[k].ids != writes[k - 1].ids
    requires id in writes[0].ids && id in DiskTable(writes[0]) && DiskTable(writes[0])[id]
    ensures times[k] > 0 && writes[k].ids == writes[k - 1].ids + [dash.launchId(times[k] - 1)]
    ensures exists t: nat :: from <= t < times[k] - 1 && dash.answer(t, id) == Terminal(true)
  {
    assert DueToCall(dash, writes, times, k);
    assert id in Passed(DiskTable(writes[0]));
    assert AnsweredDuring(dash, from, times[k] - 1, id, true);
  }

  lemma {:induction false} TimesFrom(dash: Dashboard, from: nat, writes: seq<Disk>, times: seq<nat>, k: nat)
    requires Timed(dash, from, writes, times) && k < |writes|
    ensures from <= times[k] && (k > 1 ==> from < times[k])
  {
    if k <= 1 {
    } else {
      TimesFrom(dash, from, writes, times, k - 1);
      assert DueToCall(dash, writes, times, k);
    }
  }

  /** Every pass in memory was found on disk at the start, or reported during the run. */
  ghost predicate PassesAnswered(dash: Dashboard, o: Origin, now: nat, memory: map<string, bool>) {
    forall id :: id in Passed(memory) ==> id in Passed(DiskTable(o.disk)) || AnsweredDuring(dash, o.clock, now, id, true)
  }

  /** Ids launched from now on are new to the disk: a run can follow. */
  ghost predicate Ready(dash: Dashboard, m: Machine) {
    FreshIds(dash, m.clock, Elems(m.disk.ids) + DiskTable(m.disk).Keys)
  }

  // ----- What the loop keeps -----

  /** Every write so far was due to a call. */
  ghost predicate Paced(dash: Dashboard, o: Origin, m: Machine) {
    && Timed(dash, o.clock, m.writes, m.times) && m.times[|m.times| - 1] <= m.clock
    && m.writes[0] == o.disk
  }

  lemma PacedOneMore(dash: Dashboard, o: Origin, m: Machine, next: Disk)
    requires Logged(m) && Paced(dash, o, m) && m.times[|m.times| - 1] < m.clock
    requires LegalWrite(m.disk, next) && CalledFor(dash, o.disk, o.clock, m.disk, next, m.clock - 1)
    ensures Logged(Written(m, next)) && Paced(dash, o, Written(m, next))
  {
    LogWrite(m, next);
    TimedOneMore(dash, o.clock, m.writes, m.times, next, m.clock);
  }

  /** The noted scans that had passed at the start are still to be checked again, being checked, or were reported
      as passed again by call "now"; none of them lost its pass. */
  ghost predicate Rechecking(dash: Dashboard, o: Origin, now: nat, v: Locals) {
    && (forall id :: id in Passed(DiskTable(o.disk)) ==> id in v.existing && v.existing[id])
    && (forall id :: id in o.disk.ids && id in Passed(DiskTable(o.disk)) ==>
          id in v.pending || v.current == Some(id) || AnsweredDuring(dash, o.clock, now, id, true))
  }

  lemma AnsweredLater(dash: Dashboard, from: nat, to: nat, later: nat, id: string)
    requires AnsweredDuring(dash, from, to, id, true) && to <= later
    ensures AnsweredDuring(dash, from, later, id, true)
  {
  }

  /** With nothing left to check and no scan under watch, all earlier passes were checked again. */
  lemma AllRechecked(dash: Dashboard, o: Origin, now: nat, v: Locals, later: nat)
    requires Rechecking(dash, o, now, v) && v.current.None? && now <= later
    requires forall x :: x in v.pending ==> x in v.existing && !v.existing[x]
    ensures Rechecked(dash, o.disk, o.clock, later)
  {
    forall id | id in o.disk.ids && id in Passed(DiskTable(o.disk))
      ensures AnsweredDuring(dash, o.clock, later, id, true)
    {
      AnsweredLater(dash, o.clock, now, later, id);
    }
  }

  lemma RecheckingLater(dash: Dashboard, o: Origin, now: nat, v: Locals, later: nat, current: Option<string>)
    requires Rechecking(dash, o, now, v) && v.current.None? && now <= later
    ensures Rechecking(dash, o, later, v.(current := current))
  {
    forall id | id in o.disk.ids && id in Passed(DiskTable(o.disk)) && id !in v.pending
      ensures AnsweredDuring(dash, o.clock, later, id, true)
    {
      AnsweredLater(dash, o.clock, now, later, id);
    }
  }

  lemma PassRechecks(dash: Dashboard, o: Origin, now: nat, v: Locals, later: nat)
    requires Rechecking(dash, o, now, v) && v.current.Some? && o.clock <= now < later
    requires dash.answer(later - 1, v.current.value) == Terminal(true)
    ensures Rechecking(dash, o, later, Locals(v.pending, None, v.existing[v.current.value := true]))
  {
    forall id | id in o.disk.ids && id in Passed(DiskTable(o.disk)) && id !in v.pending
      ensures AnsweredDuring(dash, o.clock, later, id, true)
    {
      if v.current != Some(id) {
        AnsweredLater(dash, o.clock, now, later, id);
      }
    }
  }

  ghost predicate LoopOk(total: nat, dash: Dashboard, o: Origin, m: Machine, v: Locals) {
    && Logged(m) && Paced(dash, o, m) && History(m.writes, v.existing)
    && Rechecking(dash, o, m.times[|m.times| - 1], v)
    && (v.current.Some? && v.current.value in v.existing ==> Unrecorded(m.disk) == {})
    && InStep(m.disk, v.existing) && Covered(m.disk.ids, v.pending, v.current, v.existing)
    && FreshIds(dash, m.clock, Elems(m.disk.ids) + v.existing.Keys)
    && (v.current.Some? && v.current.value in v.existing ==> v.existing[v.current.value])
    && (v.current.Some? ==> |Passed(v.existing)| < total)
    && Elems(o.disk.ids) <= Elems(m.disk.ids) && StrayKept(total, o.disk, m.disk.ids, v.existing)
    && LaunchBound(total, o, m.launches)
    && LaunchesPaid(o, m.launches, v.current.Some? && v.current.value !in v.existing, v.existing)
  }

  /** Taking up an id that is unrecorded or passed keeps the loop's facts. */
  lemma PickKeeps(total: nat, dash: Dashboard, o: Origin, m: Machine, v: Locals, c: string, rest: seq<string>)
    requires LoopOk(total, dash, o, m, v) && v.current.None? && |Passed(v.existing)| < total
    requires c in v.pending && (c in v.existing ==> v.existing[c] && Unrecorded(m.disk) == {})
    requires forall x :: x in rest <==> x in v.pending && (x != c || c !in v.existing)
    ensures LoopOk(total, dash, o, m, Locals(rest, Some(c), v.existing))
  {
  }

  /** When nothing noted is left to look at, every noted id has a result on disk. */
  lemma NothingUnrecorded(total: nat, dash: Dashboard, o: Origin, m: Machine, v: Locals)
    requires LoopOk(total, dash, o, m, v) && v.current.None?
    requires forall x :: x in v.pending ==> x in v.existing
    ensures Unrecorded(m.disk) == {}
  {
  }

  lemma LaunchPaced(total: nat, dash: Dashboard, o: Origin, m: Machine, v: Locals, next: Machine)
    requires LoopOk(total, dash, o, m, v) && v.current.None? && Unrecorded(m.disk) == {}
    requires forall x :: x in v.pending ==> x in v.existing && !v.existing[x]
    requires var d := m.disk.(ids := m.disk.ids + [dash.launchId(m.clock)]);
             next == Written(m.(clock := m.clock + 1, launches := m.launches + 1), d)
    ensures Logged(next) && Paced(dash, o, next) && Launched(m.disk, next.disk)
    ensures Rechecking(dash, o, next.times[|next.times| - 1], v.(current := Some(dash.launchId(m.clock))))
  {
    var id := dash.launchId(m.clock);
    assert next.disk.ids == m.disk.ids + [id];
    AllRechecked(dash, o, m.times[|m.times| - 1], v, m.clock);
    assert CalledFor(dash, o.disk, o.clock, m.disk, next.disk, m.clock);
    PacedOneMore(dash, o, m.(clock := m.clock + 1, launches := m.launches + 1), next.disk);
    RecheckingLater(dash, o, m.times[|m.times| - 1], v, m.clock + 1, Some(id));
  }

  lemma LaunchKeeps(total: nat, dash: Dashboard, o: Origin, m: Machine, v: Locals, next: Machine)
    requires LoopOk(total, dash, o, m, v) && v.current.None? && |Passed(v.existing)| < total
    requires Unrecorded(m.disk) == {}
    requires forall x :: x in v.pending ==> x in v.existing && !v.existing[x]
    requires var d := m.disk.(ids := m.disk.ids + [dash.launchId(m.clock)]);
             next == Written(m.(clock := m.clock + 1, launches := m.launches + 1), d)
    ensures Launched(m.disk, next.disk)
    ensures LoopOk(total, dash, o, next, v.(current := Some(dash.launchId(m.clock))))
  {
    var id := dash.launchId(m.clock);
    LaunchPaced(total, dash, o, m, v, next);
    assert id !in Elems(m.disk.ids) + v.existing.Keys;
    assert Elems(next.disk.ids) == Elems(m.disk.ids) + {id};
  }

  /** The disk after the result of one scan is stored. */
  ghost function AfterResult(d: Disk, existing: map<string, bool>): Disk {
    d.(saved := Some(Saved(RowsFor(Distinct(d.ids), existing), Some(Running))))
  }

  lemma ResultIsLegal(d: Disk, existing: map<string, bool>, c: string, passed: bool)
    requires InStep(d, existing) && c in d.ids
    ensures var updated := existing[c := passed]; var next := AfterResult(d, updated);
            && LegalWrite(d, next) && EvaluatedAs(d, next, c, passed)
            && DiskTable(next) == Restrict(updated, d.ids) && InStep(next, updated)
  {
    var updated := existing[c := passed];
    var next := AfterResult(d, updated);
    NotedRows(updated, d.ids);
    assert EvaluatedAs(d, next, c, passed);
  }

  lemma HistoryGrows(writes: seq<Disk>, existing: map<string, bool>, c: string, next: Disk)
    requires writes != [] && History(writes, existing) && (c in existing ==> existing[c])
    requires DiskTable(next) == Restrict(existing[c := true], next.ids) && MarkedAs(next, Running)
    ensures History(writes + [next], existing[c := true])
  {
    var more := writes + [next];
    forall k | 0 <= k < |more|
      ensures FailuresKept(more[k], existing[c := true]) && (k > 0 ==> MarkedAs(more[k], Running))
    {
      if k < |writes| {
        assert FailuresKept(writes[k], existing);
      }
    }
  }

  lemma PassKeepsStray(total: nat, d0: Disk, ids: seq<string>, existing: map<string, bool>, c: string)
    requires StrayKept(total, d0, ids, existing) && c in ids && |Passed(existing)| < total && (c in existing ==> existing[c])
    ensures StrayKept(total, d0, ids, existing[c := true])
  {
    PassIsProgress(total, [], c, existing);
  }

  lemma FewerKnown(dash: Dashboard, now: nat, more: set<string>, fewer: set<string>)
    requires FreshIds(dash, now, more) && fewer <= more
    ensures FreshIds(dash, now, fewer)
  {
  }

  /** The last call, made since the last write, reported that "id" had ended so. */
  ghost predicate JustReported(dash: Dashboard, m: Machine, id: string, passed: bool) {
    m.times != [] && m.times[|m.times| - 1] < m.clock && dash.answer(m.clock - 1, id) == Terminal(passed)
  }

  lemma RecordedOnDisk(total: nat, dash: Dashboard, o: Origin, m: Machine, v: Locals)
    requires LoopOk(total, dash, o, m, v) && v.current.Some?
    ensures v.current.value in DiskTable(m.disk) ==> Unrecorded(m.disk) == {}
  {
  }

  lemma PassPaced(total: nat, dash: Dashboard, o: Origin, m: Machine, v: Locals, next: Machine)
    requires LoopOk(total, dash, o, m, v) && v.current.Some? && JustReported(dash, m, v.current.value, true)
    requires next == Written(m, AfterResult(m.disk, v.existing[v.current.value := true]))
    ensures Logged(next) && Paced(dash, o, next)
    ensures Rechecking(dash, o, m.clock, Locals(v.pending, None, v.existing[v.current.value := true]))
  {
    var c := v.current.value;
    ResultIsLegal(m.disk, v.existing, c, true);
    RecordedOnDisk(total, dash, o, m, v);
    assert AnsweredAs(dash, m.disk, next.disk, m.clock - 1, c, true);
    PacedOneMore(dash, o, m, next.disk);
    TimesFrom(dash, o.clock, m.writes, m.times, |m.times| - 1);
    PassRechecks(dash, o, m.times[|m.times| - 1], v, m.clock);
  }

  lemma PassKeeps(total: nat, dash: Dashboard, o: Origin, m: Machine, v: Locals, next: Machine)
    requires LoopOk(total, dash, o, m, v) && v.current.Some? && JustReported(dash, m, v.current.value, true)
    requires next == Written(m, AfterResult(m.disk, v.existing[v.current.value := true]))
    ensures LoopOk(total, dash, o, next, Locals(v.pending, None, v.existing[v.current.value := true]))
    ensures Work(total, v.pending, None, v.existing[v.current.value := true]) < Work(total, v.pending, v.current, v.existing)
  {
    var c := v.current.value;
    var updated := v.existing[c := true];
    ResultIsLegal(m.disk, v.existing, c, true);
    PassPaced(total, dash, o, m, v, next);
    PassIsProgress(total, v.pending, c, v.existing);
    HistoryGrows(m.writes, v.existing, c, next.disk);
    PassKeepsStray(total, o.disk, m.disk.ids, v.existing, c);
    FewerKnown(dash, m.clock, Elems(m.disk.ids) + v.existing.Keys, Elems(m.disk.ids) + updated.Keys);
  }

  function Stopped(d: Disk): Disk
    requires d.saved.Some?
  {
    d.(saved := Some(d.saved.value.(status := Some(StoppedOnFailure))))
  }

  /** The last disk is the only one since the first with the stop mark, and the last two are the only ones
      with a failing result of "id". */
  ghost predicate FirstFailure(all: seq<Disk>, id: string) {
    && (forall k :: 0 < k < |all| ==> (MarkedAs(all[k], StoppedOnFailure) <==> k == |all| - 1))
    && (forall k :: 0 <= k < |all| ==> (id in Failing(all[k]) <==> k >= |all| - 2))
  }

  /** The run asked for "id", was told that it failed, saved that, and then saved the stop mark.
      No earlier disk of the run has the mark, and none has a failing result of "id". */
  ghost predicate FailedOn(dash: Dashboard, m: Machine, id: string) {
    var n := |m.writes|;
    && n == |m.times| >= 4 && m.times[n - 2] > 0
    && AnsweredAs(dash, m.writes[n - 3], m.writes[n - 2], m.times[n - 2] - 1, id, false)
    && MarkedAs(m.writes[n - 2], Running) && m.writes[n - 1] == Stopped(m.writes[n - 2])
    && FirstFailure(m.writes, id)
  }

  ghost predicate EndedInFailure(dash: Dashboard, m: Machine) {
    exists id :: FailedOn(dash, m, id)
  }

  /** What the end of a run leaves: each write but the closing one was due to a call, and another run can follow. */
  ghost predicate Closed(total: nat, dash: Dashboard, o: Origin, m: Machine) {
    && Logged(m) && m.writes[0] == o.disk && |m.writes| == |m.times| > 2
    && Timed(dash, o.clock, m.writes[..|m.writes| - 1], m.times[..|m.times| - 1])
    && m.times[|m.times| - 1] == m.clock && Ready(dash, m) && LaunchBound(total, o, m.launches)
  }

  /** A crash loses the stop of a failed attempt exactly when it falls between the two saves: then, and only then,
      the failing result is on disk and the mark that would stop the next run is not. */
  lemma StopLostExactlyWhen(dash: Dashboard, m: Machine, id: string, cut: nat)
    requires FailedOn(dash, m, id) && 1 < cut <= |m.writes|
    ensures id in Failing(m.writes[cut - 1]) && !MarkedAs(m.writes[cut - 1], StoppedOnFailure) <==> cut == |m.writes| - 1
  {
  }

  /** The failing result and the stop mark are the last two writes, and the first of their kind. */
  lemma FailureIsNew(writes: seq<Disk>, existing: map<string, bool>, c: string, d: Disk)
    requires |writes| >= 2 && History(writes, existing) && (c in existing ==> existing[c])
    requires MarkedAs(d, Running) && c in d.ids && DiskTable(d) == Restrict(existing[c := false], d.ids)
    ensures FirstFailure(writes + [d] + [Stopped(d)], c)
  {
    var all := writes + [d] + [Stopped(d)];
    forall k | 0 <= k < |writes|
      ensures all[k] == writes[k] && c !in Failing(all[k]) && (k > 0 ==> MarkedAs(all[k], Running))
    {
      assert FailuresKept(writes[k], existing);
    }
    assert all[|writes|] == d && all[|writes| + 1] == Stopped(d) && DiskTable(Stopped(d)) == DiskTable(d);
  }

  /** The disk after a failing result is stored. */
  ghost function AfterFailure(m: Machine, v: Locals): Disk
    requires v.current.Some?
  {
    AfterResult(m.disk, v.existing[v.current.value := false])
  }

  lemma FailureWritten(dash: Dashboard, m: Machine, d: Disk, id: string)
    requires |m.writes| == |m.times| >= 2 && m.writes[|m.writes| - 1] == m.disk && m.clock > 0
    requires AnsweredAs(dash, m.disk, d, m.clock - 1, id, false) && MarkedAs(d, Running)
    requires FirstFailure(m.writes + [d] + [Stopped(d)], id)
    ensures FailedOn(dash, Written(Written(m, d), Stopped(d)), id)
  {
    var next := Written(Written(m, d), Stopped(d));
    var n := |m.writes|;
    assert next.writes == m.writes + [d] + [Stopped(d)];
    assert next.writes[n - 1] == m.disk && next.writes[n] == d && next.writes[n + 1] == Stopped(d);
    assert next.times[n] == m.clock;
  }

  lemma FailureFound(total: nat, dash: Dashboard, o: Origin, m: Machine, v: Locals)
    requires LoopOk(total, dash, o, m, v) && v.current.Some? && JustReported(dash, m, v.current.value, false)
    ensures var d := AfterFailure(m, v); FailedOn(dash, Written(Written(m, d), Stopped(d)), v.current.value)
  {
    var c := v.current.value;
    var d := AfterFailure(m, v);
    ResultIsLegal(m.disk, v.existing, c, false);
    RecordedOnDisk(total, dash, o, m, v);
    FailureIsNew(m.writes, v.existing, c, d);
    FailureWritten(dash, m, d, c);
  }

  lemma FailureClosed(total: nat, dash: Dashboard, o: Origin, m: Machine, v: Locals)
    requires LoopOk(total, dash, o, m, v) && v.current.Some? && JustReported(dash, m, v.current.value, false)
    ensures var d := AfterFailure(m, v); Closed(total, dash, o, Written(Written(m, d), Stopped(d)))
  {
    var c := v.current.value;
    var d := AfterFailure(m, v);
    ResultIsLegal(m.disk, v.existing, c, false);
    RecordedOnDisk(total, dash, o, m, v);
    assert AnsweredAs(dash, m.disk, d, m.clock - 1, c, false);
    PacedOneMore(dash, o, m, d);
    StopCloses(total, dash, o, Written(m, d), v.existing.Keys);
  }

  lemma StopCloses(total: nat, dash: Dashboard, o: Origin, m: Machine, known: set<string>)
    requires Logged(m) && Paced(dash, o, m) && m.times[|m.times| - 1] == m.clock && LaunchBound(total, o, m.launches)
    requires m.disk.saved.Some? && FreshIds(dash, m.clock, Elems(m.disk.ids) + known)
    requires DiskTable(m.disk).Keys <= Elems(m.disk.ids) + known
    ensures Closed(total, dash, o, Written(m, Stopped(m.disk)))
  {
    var next := Written(m, Stopped(m.disk));
    assert Marked(m.disk, next.disk);
    LogWrite(m, next.disk);
    assert next.writes[..|next.writes| - 1] == m.writes && next.times[..|next.times| - 1] == m.times;
    FewerKnown(dash, m.clock, Elems(m.disk.ids) + known, Elems(next.disk.ids) + DiskTable(next.disk).Keys);
  }

  /** How many of the passes found at the start are not needed. */
  function Surplus(total: nat, d: Disk): nat {
    if |Passed(DiskTable(d))| > total then |Passed(DiskTable(d))| - total else 0
  }

  /** Passed rows that name no noted id. */
  function Stray(d: Disk): set<string> {
    set x | x in Passed(DiskTable(d)) && x !in d.ids
  }

  /** Enough distinct scans passed. A run counts saved rows that name no noted id, then drops them, so that many
      are on disk exactly when there were no more such rows than surplus passes to begin with. */
  ghost predicate Succeeded(total: nat, dash: Dashboard, o: Origin, m: Machine, memory: map<string, bool>) {
    && MarkedAs(m.disk, Completed) && |Passed(memory)| >= total && DiskTable(m.disk) == Restrict(memory, m.disk.ids)
    && StrayKept(total, o.disk, m.disk.ids, memory) && PassesAnswered(dash, o, m.clock, memory)
    && (|Passed(DiskTable(m.disk))| >= total <==> |Stray(o.disk)| <= Surplus(total, o.disk))
    && (forall k :: 0 < k < |m.writes| ==> !MarkedAs(m.writes[k], StoppedOnFailure))
  }

  lemma SuccessOnDiskExactlyWhen(memory: map<string, bool>, start: Disk, end: Disk, total: nat)
    requires |Passed(memory)| >= total && DiskTable(end) == Restrict(memory, end.ids)
    requires StrayKept(total, start, end.ids, memory) && Elems(start.ids) <= Elems(end.ids)
    ensures |Passed(DiskTable(end))| >= total <==> |Stray(start)| <= Surplus(total, start)
  {
    assert forall x :: x in start.ids ==> x in Elems(start.ids);
    assert forall x :: x in end.ids <==> x in Elems(end.ids);
    assert Passed(memory) == Passed(DiskTable(end)) + Stray(start);
    assert Passed(DiskTable(end)) !! Stray(start);
  }

  lemma MemoryAnswered(total: nat, dash: Dashboard, o: Origin, m: Machine, v: Locals)
    requires LoopOk(total, dash, o, m, v)
    ensures PassesAnswered(dash, o, m.clock, v.existing)
  {
    var n := |m.writes| - 1;
    forall id | id in Passed(v.existing)
      ensures id in Passed(DiskTable(o.disk)) || AnsweredDuring(dash, o.clock, m.clock, id, true)
    {
      if id in m.disk.ids {
        ResultsAnswered(dash, o.clock, m.writes, m.times, n, id);
      }
    }
  }

  /** The closing write of a successful run. */
  function AfterSuccess(d: Disk, existing: map<string, bool>): Disk {
    d.(saved := Some(Saved(RowsFor(Distinct(d.ids), existing), Some(Completed))))
  }

  lemma SuccessClosed(total: nat, dash: Dashboard, o: Origin, m: Machine, v: Locals)
    requires LoopOk(total, dash, o, m, v)
    ensures Closed(total, dash, o, Written(m, AfterSuccess(m.disk, v.existing)))
  {
    var next := Written(m, AfterSuccess(m.disk, v.existing));
    NotedRows(v.existing, m.disk.ids);
    assert Restrict(v.existing, m.disk.ids) == Restrict(DiskTable(m.disk), m.disk.ids);
    assert Trimmed(m.disk, next.disk);
    LogWrite(m, next.disk);
    assert next.writes[..|next.writes| - 1] == m.writes && next.times[..|next.times| - 1] == m.times;
    FewerKnown(dash, m.clock, Elems(m.disk.ids) + v.existing.Keys, Elems(next.disk.ids) + DiskTable(next.disk).Keys);
  }

  lemma SuccessCounted(total: nat, dash: Dashboard, o: Origin, m: Machine, v: Locals)
    requires LoopOk(total, dash, o, m, v) && |Passed(v.existing)| >= total
    ensures Succeeded(total, dash, o, Written(m, AfterSuccess(m.disk, v.existing)), v.existing)
  {
    var next := AfterSuccess(m.disk, v.existing);
    NotedRows(v.existing, m.disk.ids);
    SuccessOnDiskExactlyWhen(v.existing, o.disk, next, total);
    MemoryAnswered(total, dash, o, m, v);
  }

  /** The first write of a run, and what it starts from. */
  lemma StartKeeps(total: nat, dash: Dashboard, m: Machine, next: Machine)
    requires m.writes == [m.disk] && m.times == [m.clock] && Ready(dash, m)
    requires next == Written(m, next.disk) && Marked(m.disk, next.disk) && MarkedAs(next.disk, Running)
    ensures LoopOk(total, dash, Origin(m.disk, m.launches, m.clock), next,
                   Locals(Distinct(m.disk.ids), None, DiskTable(m.disk)))
  {
    var ids := m.disk.ids;
    LogWrite(m, next.disk);
    DistinctElems(ids);
    assert forall x :: x in Distinct(ids) <==> x in Elems(Distinct(ids));
    assert forall x :: x in ids <==> x in Elems(ids);
  }

  class Supervisor {
    const total: nat
    const dash: Dashboard
    var ids: seq<string>
    var saved: Option<Saved>
    var clock: nat                   // calls made so far
    ghost var launches: nat
    ghost var writes: seq<Disk>
    ghost var times: seq<nat>

    ghost function Now(): Machine
      reads this
    {
      Machine(Disk(ids, saved), clock, launches, writes, times)
    }

    constructor (total: nat, dash: Dashboard, ids: seq<string>, saved: Option<Saved>)
      ensures this.total == total && this.dash == dash
      ensures Now() == Machine(Disk(ids, saved), 0, 0, [Disk(ids, saved)], [0])
    {
      this.total, this.dash, this.ids, this.saved := total, dash, ids, saved;
      clock, launches, writes, times := 0, 0, [Disk(ids, saved)], [0];
    }

    /** Replaces the state file. */
    method Save(runs: seq<Row>, status: Status)
      modifies this`saved, this`writes, this`times
      ensures Now() == Written(old(Now()), Disk(ids, Some(Saved(runs, Some(status)))))
    {
      saved := Some(Saved(runs, Some(status)));
      writes, times := writes + [Disk(ids, saved)], times + [clock];
    }

    /** Starts a scan and notes its id before doing anything else. */
    method Launch() returns (id: string)
      modifies this`ids, this`clock, this`launches, this`writes, this`times
      ensures id == dash.launchId(old(clock))
      ensures Now() == Written(old(Now()).(clock := old(clock) + 1, launches := old(launches) + 1), Disk(old(ids) + [id], saved))
    {
      id := dash.launchId(clock);
      clock, launches := clock + 1, launches + 1;
      ids := ids + [id];
      writes, times := writes + [Disk(ids, saved)], times + [clock];
    }

    method Inspect(id: string) returns (answer: Answer)
      modifies this`clock
      ensures answer == dash.answer(old(clock), id) && Now() == old(Now()).(clock := old(clock) + 1)
    {
      answer := dash.answer(clock, id);
      clock := clock + 1;
    }

    method FirstUnrecorded(pending: seq<string>, existing: map<string, bool>) returns (c: Option<string>)
      ensures c.Some? ==> c.value in pending && c.value !in existing
      ensures c.Some? ==> exists n :: 0 <= n < |pending| && pending[n] == c.value &&
                                      forall i :: 0 <= i < n ==> pending[i] in existing
      ensures c.None? ==> forall x :: x in pending ==> x in existing
    {
      c := None;
      for n := 0 to |pending|
        invariant forall i :: 0 <= i < n ==> pending[i] in existing
      {
        if pending[n] !in existing {
          return Some(pending[n]);
        }
      }
    }

    method FirstPassed(pending: seq<string>, existing: map<string, bool>) returns (c: Option<string>)
      requires forall x :: x in pending ==> x in existing
      ensures c.Some? ==> c.value in pending && existing[c.value]
      ensures c.Some? ==> exists n :: 0 <= n < |pending| && pending[n] == c.value &&
                                      forall i :: 0 <= i < n ==> !existing[pending[i]]
      ensures c.None? ==> forall x :: x in pending ==> !existing[x]
    {
      c := None;
      for n := 0 to |pending|
        invariant forall i :: 0 <= i < n ==> !existing[pending[i]]
      {
        if existing[pending[n]] {
          return Some(pending[n]);
        }
      }
    }

    /** Takes up the next scan: an unrecorded one, else a passed one to re-validate, else a new launch. */
    method PickNext(v: Locals, ghost o: Origin) returns (w: Locals, ghost due: nat)
      requires EventuallyTerminal(dash)
      requires LoopOk(total, dash, o, Now(), v) && v.current.None? && |Passed(v.existing)| < total
      modifies this`ids, this`clock, this`launches, this`writes, this`times
      ensures LoopOk(total, dash, o, Now(), w) && w.current.Some? && w.existing == v.existing
      ensures Work(total, w.pending, w.current, w.existing) == Work(total, v.pending, v.current, v.existing)
      ensures EndsBy(dash, clock, due, w.current.value)
    {
      var c := FirstUnrecorded(v.pending, v.existing);
      if c.None? {
        NothingUnrecorded(total, dash, o, Now(), v);
      }
      if c.Some? {
        PickKeeps(total, dash, o, Now(), v, c.value, v.pending);
        w := v.(current := c);
      } else {
        c := FirstPassed(v.pending, v.existing);
        if c.Some? {
          var rest := Without(v.pending, c.value);
          WithoutMembers(v.pending, c.value);
          PickKeepsWork(total, v.pending, c.value, v.existing);
          PickKeeps(total, dash, o, Now(), v, c.value, rest);
          w := Locals(rest, c, v.existing);
        } else {
          ghost var before := Now();
          var id := Launch();
          LaunchKeeps(total, dash, o, before, v, Now());
          w := v.(current := Some(id));
        }
      }
      due := dash.endsBy(clock, w.current.value);
    }

    /** Stores the pass just reported for the current scan. */
    method StorePass(v: Locals, ghost o: Origin) returns (w: Locals)
      requires LoopOk(total, dash, o, Now(), v) && v.current.Some? && JustReported(dash, Now(), v.current.value, true)
      modifies this`saved, this`writes, this`times
      ensures w == Locals(v.pending, None, v.existing[v.current.value := true]) && LoopOk(total, dash, o, Now(), w)
      ensures Work(total, w.pending, w.current, w.existing) < Work(total, v.pending, v.current, v.existing)
    {
      ghost var before := Now();
      var updated := v.existing[v.current.value := true];
      Save(RowsFor(Distinct(ids), updated), Running);
      PassKeeps(total, dash, o, before, v, Now());
      w := Locals(v.pending, None, updated);
    }

    /** Stores the failure just reported for the current scan, and then the stop mark. */
    method StoreFailure(v: Locals, ghost o: Origin)
      requires LoopOk(total, dash, o, Now(), v) && v.current.Some? && JustReported(dash, Now(), v.current.value, false)
      modifies this`saved, this`writes, this`times
      ensures Closed(total, dash, o, Now()) && FailedOn(dash, Now(), v.current.value)
    {
      FailureFound(total, dash, o, Now(), v);
      FailureClosed(total, dash, o, Now(), v);
      Save(RowsFor(Distinct(ids), v.existing[v.current.value := false]), Running);
      Save(saved.value.runs, StoppedOnFailure);
    }

    /** Asks for the current scan once and stores its result when it has ended; None while it has not. */
    method Watch(v: Locals, ghost o: Origin, ghost due: nat) returns (outcome: Option<bool>, w: Locals)
      requires LoopOk(total, dash, o, Now(), v) && v.current.Some? && EndsBy(dash, clock, due, v.current.value)
      modifies this`clock, this`saved, this`writes, this`times
      ensures clock == old(clock) + 1
      ensures outcome == (match dash.answer(old(clock), v.current.value) case InProgress => None case Terminal(p) => Some(p))
      ensures outcome.None? ==> w == v && LoopOk(total, dash, o, Now(), v) && EndsBy(dash, clock, due, v.current.value)
      ensures outcome == Some(true) ==>
                && w == Locals(v.pending, None, v.existing[v.current.value := true]) && LoopOk(total, dash, o, Now(), w)
                && Work(total, w.pending, w.current, w.existing) < Work(total, v.pending, v.current, v.existing)
      ensures outcome == Some(false) ==>
                Closed(total, dash, o, Now()) && FailedOn(dash, Now(), v.current.value)
    {
      var result := Inspect(v.current.value);
      if result.InProgress? {
        return None, v;
      }
      outcome := Some(result.passed);
      if result.passed {
        w := StorePass(v, o);
      } else {
        StoreFailure(v, o);
        w := v;
      }
    }

    /** One turn of the loop: takes up a scan if none is being watched, and looks at it once. */
    method Turn(v: Locals, ghost o: Origin, ghost due: nat)
      returns (failed: bool, w: Locals, ghost due': nat)
      requires EventuallyTerminal(dash)
      requires LoopOk(total, dash, o, Now(), v) && |Passed(v.existing)| < total
      requires v.current.Some? ==> EndsBy(dash, clock, due, v.current.value)
      modifies this`ids, this`saved, this`clock, this`launches, this`writes, this`times
      ensures failed ==> Closed(total, dash, o, Now()) && EndedInFailure(dash, Now()) && |Passed(DiskTable(o.disk))| < total
      ensures !failed ==>
                && LoopOk(total, dash, o, Now(), w)
                && (w.current.Some? ==> EndsBy(dash, clock, due', w.current.value))
                && Work(total, w.pending, w.current, w.existing) <= Work(total, v.pending, v.current, v.existing)
      // Either the work shrinks, or the same scan goes on being watched.
      ensures !failed && Work(total, w.pending, w.current, w.existing) == Work(total, v.pending, v.current, v.existing) ==>
                w.current.Some? && (v.current.Some? ==> due' == due && clock == old(clock) + 1)
    {
      w, due' := v, due;
      if w.current.None? {
        w, due' := PickNext(w, o);
      }
      var outcome;
      outcome, w := Watch(w, o, due');
      failed := outcome == Some(false);
    }

    /** Loads the table, marks the run as running and reads the ids to look at. */
    method Start() returns (v: Locals)
      requires Ready(dash, Now())
      modifies this`saved, this`writes, this`times
      ensures v.current.None? && v.existing == old(DiskTable(Now().disk))
      ensures LoopOk(total, dash, old(Origin(Now().disk, launches, clock)), Now(), v)
    {
      writes, times := [Disk(ids, saved)], [clock];
      ghost var before := Now();
      var runs := if saved.None? then [] else saved.value.runs;
      Save(runs, Running);
      v := Locals(Distinct(ids), None, Table(runs));
      StartKeeps(total, dash, before, Now());
    }

    /** The closing write of a successful run. */
    method Finish(v: Locals, ghost o: Origin)
      requires LoopOk(total, dash, o, Now(), v) && |Passed(v.existing)| >= total
      modifies this`saved, this`writes, this`times
      ensures Closed(total, dash, o, Now()) && Succeeded(total, dash, o, Now(), v.existing)
    {
      ghost var before := Now();
      Save(RowsFor(Distinct(ids), v.existing), Completed);
      SuccessClosed(total, dash, o, before, v);
      SuccessCounted(total, dash, o, before, v);
    }

    /** Runs until enough scans have passed (0) or one fails (2). */
    method Run(resume: bool) returns (code: nat, ghost memory: map<string, bool>)
      requires EventuallyTerminal(dash) && Ready(dash, Now())
      modifies this
      ensures code == 0 || code == 2
      // A failed attempt stays a stop until it is overridden; nothing else keeps a run from going on.
      ensures writes != [] && writes[0] == old(Now().disk)
      ensures |writes| == 1 <==> old(MarkedAs(Now().disk, StoppedOnFailure)) && !resume
      ensures |writes| == 1 ==>
                code == 2 && Now() == old(Now()).(writes := writes, times := times)
      // Every write but the closing one was due to a call, and no more was launched than passes were missing.
      ensures |writes| > 1 ==> Closed(total, dash, old(Origin(Now().disk, launches, clock)), Now())
      ensures code == 0 ==> Succeeded(total, dash, old(Origin(Now().disk, launches, clock)), Now(), memory)
      // Otherwise the dashboard reported a scan as failed, while passes were missing.
      ensures code == 2 && |writes| > 1 ==> EndedInFailure(dash, Now()) && |old(Passed(DiskTable(Now().disk)))| < total
    {
      if saved.Some? && saved.value.status == Some(StoppedOnFailure) && !resume {
        writes, times := [Disk(ids, saved)], [clock];
        return 2, DiskTable(Now().disk);
      }
      ghost var o := Origin(Now().disk, launches, clock);
      var v := Start();
      ghost var due: nat := 0;
      while true
        invariant LoopOk(total, dash, o, Now(), v)
        invariant v.current.Some? ==> EndsBy(dash, clock, due, v.current.value)
        decreases Work(total, v.pending, v.current, v.existing), if v.current.None? then 1 else 0, due - clock
      {
        if |Passed(v.existing)| >= total {
          Finish(v, o);
          return 0, v.existing;
        }
        var failed;
        failed, v, due := Turn(v, o, due);
        if failed {
          return 2, v.existing;
        }
      }
    }
  }

  /** A result table without its id file: the one passed row is a stray one. */
  lemma StrayStart(id: string)
    ensures var d := Disk([], Some(Saved([Row(id, true)], None)));
            DiskTable(d) == map[id := true] && Passed(DiskTable(d)) == {id} && Stray(d) == {id}
  {
    TableOneMore([], Row(id, true));
    assert [] + [Row(id, true)] == [Row(id, true)];
  }

  lemma SuccessWithoutPasses(dash: Dashboard, o: Origin, m: Machine, memory: map<string, bool>, id: string)
    requires Succeeded(1, dash, o, m, memory) && Passed(DiskTable(o.disk)) == {id} && Stray(o.disk) == {id}
    ensures Passed(DiskTable(m.disk)) == {}
  {
    assert |Passed(DiskTable(m.disk))| == 0;
  }

  /** For instance, it is counted by a run that needs one pass, and then dropped. */
  method SuccessForgets(id: string, dash: Dashboard) returns (s: Supervisor, code: nat)
    requires EventuallyTerminal(dash) && FreshIds(dash, 0, {id})
    ensures code == 0 && s.writes != [] && Passed(DiskTable(s.writes[0])) == {id} && Passed(DiskTable(s.Now().disk)) == {}
  {
    s := new Supervisor(1, dash, [], Some(Saved([Row(id, true)], None)));
    StrayStart(id);
    ghost var o := Origin(s.Now().disk, s.launches, s.clock);
    ghost var memory;
    code, memory := s.Run(false);
    SuccessWithoutPasses(dash, o, s.Now(), memory, id);
  }

  /** A run failed and the machine went down after "cut" of its writes; the next run, without the override,
      stops at once exactly when the stop mark had been written. */
  method RestartAfterFailure(was: Dashboard, failed: Machine, cut: nat, dash: Dashboard, total: nat)
    returns (s: Supervisor, code: nat)
    requires EndedInFailure(was, failed) && 1 < cut <= |failed.writes|
    requires EventuallyTerminal(dash)
    requires var d := failed.writes[cut - 1]; FreshIds(dash, 0, Elems(d.ids) + DiskTable(d).Keys)
    ensures s.writes != [] && s.writes[0] == failed.writes[cut - 1]
    ensures code == 2 && |s.writes| == 1 <==> cut == |failed.writes|
  {
    var d := failed.writes[cut - 1];
    s := new Supervisor(total, dash, d.ids, d.saved);
    assert s.Now().disk == d;
    ghost var memory;
    code, memory := s.Run(false);
  }

  // ----- A failure whose stop is lost -----

  /** A name of "n" letters. */
  function Name(n: nat): string {
    seq(n, _ => 'x')
  }

  /** A dashboard on which every scan fails at once. */
  function AlwaysFailing(): Dashboard {
    Dashboard((t: nat) => Name(t), (t: nat, id: string) => Terminal(false), (t: nat, id: string) => t)
  }

  lemma AlwaysFailingFits()
    ensures EventuallyTerminal(AlwaysFailing()) && FreshIds(AlwaysFailing(), 0, {})
  {
    var dash := AlwaysFailing();
    assert forall t: nat, id: string :: EndsBy(dash, t, dash.endsBy(t, id), id);
    forall t: nat, u: nat | t < u
      ensures dash.launchId(t) != dash.launchId(u)
    {
      assert |Name(t)| == t && |Name(u)| == u;
    }
  }

  lemma NeverPasses(from: nat, to: nat, id: string)
    ensures !AnsweredDuring(AlwaysFailing(), from, to, id, true)
  {
  }

  /** Nothing can pass there. */
  lemma NothingPasses(o: Origin, m: Machine, memory: map<string, bool>)
    requires Passed(DiskTable(o.disk)) == {}
    ensures !Succeeded(1, AlwaysFailing(), o, m, memory)
  {
    forall id
      ensures !AnsweredDuring(AlwaysFailing(), o.clock, m.clock, id, true)
    {
      NeverPasses(o.clock, m.clock, id);
    }
    assert PassesAnswered(AlwaysFailing(), o, m.clock, memory) ==> Passed(memory) == {};
  }

  /** The disk between the two saves of a failing run there: no pass, a failure, and no stop mark. */
  lemma BetweenSaves(o: Origin, m: Machine, id: string) returns (d: Disk)
    requires Closed(1, AlwaysFailing(), o, m) && FailedOn(AlwaysFailing(), m, id) && Passed(DiskTable(o.disk)) == {}
    ensures d.saved.Some? && d.saved.value.status == Some(Running) && m.disk == Stopped(d)
    ensures Failing(d) != {} && Passed(DiskTable(d)) == {} && DiskTable(d) == DiskTable(m.disk)
  {
    var dash, n := AlwaysFailing(), |m.writes|;
    d := m.writes[n - 2];
    assert id in Failing(d);
    var writes, times := m.writes[..n - 1], m.times[..n - 1];
    assert writes[0] == o.disk && writes[n - 2] == d;
    var now := times[n - 2];
    forall x
      ensures x !in Passed(DiskTable(d))
    {
      NeverPasses(o.clock, now, x);
      if x in DiskTable(d) {
        ResultsAnswered(dash, o.clock, writes, times, n - 2, x);
        assert DiskTable(d)[x] ==> x in Passed(DiskTable(o.disk)) || AnsweredDuring(dash, o.clock, now, x, true);
      }
    }
  }

  /** The first run fails. The machine goes down between the two saves, so the disk is as the second-last write left it.
      The next run, without the override, goes on. */
  method StopLost() returns (s: Supervisor, first: nat, second: nat)
    ensures first == 2 && second == 2
    ensures s.writes != [] && Failing(s.writes[0]) != {} && !MarkedAs(s.writes[0], StoppedOnFailure) && |s.writes| > 1
  {
    AlwaysFailingFits();
    s := new Supervisor(1, AlwaysFailing(), [], None);
    ghost var o, memory := Origin(s.Now().disk, 0, 0), map[];
    first, memory := s.Run(false);
    NothingPasses(o, s.Now(), memory);
    ghost var id :| FailedOn(s.dash, s.Now(), id);
    ghost var between := BetweenSaves(o, s.Now(), id);
    s.saved := Some(s.saved.value.(status := Some(Running)));
    assert s.Now().disk == between;
    o := Origin(between, s.launches, s.clock);
    second, memory := s.Run(false);
    NothingPasses(o, s.Now(), memory);
  }
}
