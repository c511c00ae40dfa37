/** The unified activity list (mergeActivityLogs in WebUI/src/lib/activity.ts):
    scan logs and Scope events in one order, newest 500. */
module ActivityMerge {
  import opened Options
  import opened Orders
  import opened Events

  datatype ScopeEvent = ScopeEvent(
    jobId: string, eventId: nat, occurredAt: string, level: string, message: string,
    messageCode: Option<string>, messageParams: Option<map<string, ParamValue>>)

  datatype Entry = Entry(key: string, stream: string, sequence: nat, time: string, body: LogBody)

  function ActivityLevel(value: string): Level {
    if value == "success" then Success
    else if value == "warning" then Warning
    else if value == "error" then Error
    else Info
  }

  /** How an entry is keyed; "show" renders a number. */
  function ScopeEntry(e: ScopeEvent, show: nat -> string): Entry {
    Entry("scope:" + e.jobId + ":" + show(e.eventId), "scope:" + e.jobId, e.eventId, e.occurredAt,
          LogBody(Scope, ActivityLevel(e.level), e.message, e.messageCode, e.messageParams, None))
  }

  function ScanEntry(l: Log, show: nat -> string): Entry {
    Entry("scan:" + show(l.id), "scan", l.id, l.time, l.body)
  }

  function Mapped<T, U>(f: T -> U, s: seq<T>): seq<U> {
    seq(|s|, i requires 0 <= i < |s| => f(s[i]))
  }

  function Entries(scanLogs: seq<Log>, scopeEvents: seq<ScopeEvent>, show: nat -> string): seq<Entry> {
    Mapped((e: ScopeEvent) => ScopeEntry(e, show), scopeEvents) + Mapped((l: Log) => ScanEntry(l, show), scanLogs)
  }

  // ----- The comparator -----

  /** The platform's text comparison and timestamp parser. */
  datatype Platform = Platform(compare: (string, string) -> int, millis: string -> int)

  /** Text comparison is a linear order. */
  ghost predicate Linear(p: Platform) {
    && (forall x, y :: p.compare(x, y) == 0 <==> x == y)
    && (forall x, y :: p.compare(x, y) < 0 <==> p.compare(y, x) > 0)
    && (forall x, y, z :: p.compare(x, y) < 0 && p.compare(y, z) < 0 ==> p.compare(x, z) < 0)
  }

  function Compare(p: Platform, left: Entry, right: Entry): int {
    var millisecondOrder := p.millis(left.time) - p.millis(right.time);
    if millisecondOrder != 0 then millisecondOrder
    else
      var preciseTimeOrder := p.compare(left.time, right.time);
      if preciseTimeOrder != 0 then preciseTimeOrder
      else if left.stream == right.stream then left.sequence - right.sequence
      else p.compare(left.stream, right.stream)
  }

  function Before(p: Platform): (Entry, Entry) -> bool {
    (a, b) => Compare(p, a, b) < 0
  }

  ghost predicate SamePosition(a: Entry, b: Entry) {
    a.stream == b.stream && a.sequence == b.sequence
  }

  ghost predicate DistinctPositions(entries: set<Entry>) {
    forall a, b :: a in entries && b in entries && SamePosition(a, b) ==> a == b
  }

  lemma CompareTransitive(p: Platform, a: Entry, b: Entry, c: Entry)
    requires Linear(p) && Compare(p, a, b) < 0 && Compare(p, b, c) < 0
    ensures Compare(p, a, c) < 0
  {
    if p.millis(a.time) == p.millis(b.time) == p.millis(c.time) {
      if a.time == b.time == c.time {
        assert p.compare(a.time, b.time) == 0 && p.compare(b.time, c.time) == 0 && p.compare(a.time, c.time) == 0;
        if a.stream != b.stream && b.stream != c.stream {
          assert p.compare(a.stream, c.stream) < 0;
          assert a.stream != c.stream;
        }
      } else {
        assert a.time != b.time ==> p.compare(a.time, b.time) < 0;
        assert b.time != c.time ==> p.compare(b.time, c.time) < 0;
        assert p.compare(a.time, c.time) < 0;
      }
    }
  }

  /** On entries at distinct positions the comparator is a strict total order. */
  lemma CompareTotal(p: Platform, entries: set<Entry>)
    requires Linear(p) && DistinctPositions(entries)
    ensures StrictTotalOn(Before(p), entries)
    ensures forall a, b :: Compare(p, a, b) < 0 <==> Compare(p, b, a) > 0
  {
    forall a, b
      ensures Compare(p, a, b) < 0 <==> Compare(p, b, a) > 0
    {
      assert p.compare(a.time, b.time) < 0 <==> p.compare(b.time, a.time) > 0;
      assert p.compare(b.time, a.time) < 0 <==> p.compare(a.time, b.time) > 0;
      assert p.compare(a.stream, b.stream) < 0 <==> p.compare(b.stream, a.stream) > 0;
    }
    forall a, b | a in entries && b in entries && a != b
      ensures Compare(p, a, b) != 0
    {
      assert !SamePosition(a, b);
    }
    forall a, b, c | Compare(p, a, b) < 0 && Compare(p, b, c) < 0
      ensures Compare(p, a, c) < 0
    {
      CompareTransitive(p, a, b, c);
    }
  }

  // ----- The merged list -----

  function MergeActivityLogs(scanLogs: seq<Log>, scopeEvents: seq<ScopeEvent>, p: Platform, show: nat -> string): seq<Entry> {
    Last(Sort(Before(p), Entries(scanLogs, scopeEvents, show)), LOG_LIMIT)
  }

  /** Ids are unique within a scan, and event ids within a Scope job. */
  ghost predicate DistinctInputs(scanLogs: seq<Log>, scopeEvents: seq<ScopeEvent>) {
    && (forall i, j :: 0 <= i < j < |scanLogs| ==> scanLogs[i].id != scanLogs[j].id)
    && (forall i, j :: 0 <= i < j < |scopeEvents| ==>
          (scopeEvents[i].jobId, scopeEvents[i].eventId) != (scopeEvents[j].jobId, scopeEvents[j].eventId))
  }

  lemma StreamsDiffer(job: string, other: string)
    ensures "scope:" + job != "scan"
    ensures "scope:" + job == "scope:" + other ==> job == other
  {
    assert ("scope:" + job)[2] == 'o' && "scan"[2] == 'a';
    assert ("scope:" + job)[6..] == job && ("scope:" + other)[6..] == other;
  }

  lemma EntriesDistinct(scanLogs: seq<Log>, scopeEvents: seq<ScopeEvent>, show: nat -> string)
    requires DistinctInputs(scanLogs, scopeEvents)
    ensures var es := Entries(scanLogs, scopeEvents, show);
            forall i, j :: 0 <= i < j < |es| ==> !SamePosition(es[i], es[j])
  {
    var es := Entries(scanLogs, scopeEvents, show);
    var k := |scopeEvents|;
    forall i, j | 0 <= i < j < |es|
      ensures !SamePosition(es[i], es[j])
    {
      if j < k {
        StreamsDiffer(scopeEvents[i].jobId, scopeEvents[j].jobId);
      } else if i < k {
        StreamsDiffer(scopeEvents[i].jobId, "");
      }
    }
  }

  ghost predicate SameInputs(a: seq<Log>, b: seq<Log>, x: seq<ScopeEvent>, y: seq<ScopeEvent>) {
    (forall l :: l in a <==> l in b) && (forall e :: e in x <==> e in y)
  }

  lemma EntriesMembers(scanLogs: seq<Log>, scopeEvents: seq<ScopeEvent>, show: nat -> string)
    ensures forall t :: t in Entries(scanLogs, scopeEvents, show) <==>
                          || (exists l :: l in scanLogs && t == ScanEntry(l, show))
                          || (exists e :: e in scopeEvents && t == ScopeEntry(e, show))
  {
    var es := Entries(scanLogs, scopeEvents, show);
    var k := |scopeEvents|;
    forall l | l in scanLogs
      ensures ScanEntry(l, show) in es
    {
      var i :| 0 <= i < |scanLogs| && scanLogs[i] == l;
      assert es[k + i] == ScanEntry(l, show);
    }
    forall e | e in scopeEvents
      ensures ScopeEntry(e, show) in es
    {
      var i :| 0 <= i < k && scopeEvents[i] == e;
      assert es[i] == ScopeEntry(e, show);
    }
  }

  lemma SortedEntries(scanLogs: seq<Log>, scopeEvents: seq<ScopeEvent>, p: Platform, show: nat -> string)
    requires Linear(p) && DistinctInputs(scanLogs, scopeEvents)
    ensures var es := Entries(scanLogs, scopeEvents, show);
            && StrictTotalOn(Before(p), Elems(es)) && SortedBy(Before(p), Sort(Before(p), es))
            && Elems(Sort(Before(p), es)) == Elems(es)
  {
    var es := Entries(scanLogs, scopeEvents, show);
    EntriesDistinct(scanLogs, scopeEvents, show);
    forall a, b | a in Elems(es) && b in Elems(es) && SamePosition(a, b)
      ensures a == b
    {
      var i :| 0 <= i < |es| && es[i] == a;
      var j :| 0 <= j < |es| && es[j] == b;
    }
    assert NoDuplicates(es);
    CompareTotal(p, Elems(es));
    SortSorts(Before(p), es);
  }

  /** "t" shows a scan line. */
  predicate ShowsLine(t: Entry, l: Log, show: nat -> string) {
    t.key == "scan:" + show(l.id) && t.stream == "scan" && t.sequence == l.id && t.time == l.time && t.body == l.body
  }

  /** "t" shows a Scope event; a level it does not know counts as info. */
  predicate ShowsScope(t: Entry, e: ScopeEvent, show: nat -> string) {
    && t.key == "scope:" + e.jobId + ":" + show(e.eventId) && t.stream == "scope:" + e.jobId
    && t.sequence == e.eventId && t.time == e.occurredAt
    && t.body.stage == Scope && t.body.message == e.message && t.body.messageCode == e.messageCode
    && t.body.messageParams == e.messageParams && t.body.auditId == None
    && (t.body.level == Success <==> e.level == "success") && (t.body.level == Warning <==> e.level == "warning")
    && (t.body.level == Error <==> e.level == "error")
  }

  ghost predicate ShowsInput(t: Entry, scanLogs: seq<Log>, scopeEvents: seq<ScopeEvent>, show: nat -> string) {
    (exists l :: l in scanLogs && ShowsLine(t, l, show)) || (exists e :: e in scopeEvents && ShowsScope(t, e, show))
  }

  lemma EntriesShowInputs(scanLogs: seq<Log>, scopeEvents: seq<ScopeEvent>, show: nat -> string, t: Entry)
    ensures t in Entries(scanLogs, scopeEvents, show) <==> ShowsInput(t, scanLogs, scopeEvents, show)
  {
    EntriesMembers(scanLogs, scopeEvents, show);
    forall l: Log
      ensures t == ScanEntry(l, show) <==> ShowsLine(t, l, show)
    {
    }
    forall e: ScopeEvent
      ensures t == ScopeEntry(e, show) <==> ShowsScope(t, e, show)
    {
    }
  }

  /** The older entry comes first: by instant, then by the text of the time, then by sequence in one stream,
      then by the name of the stream. */
  ghost predicate OlderFirst(p: Platform, a: Entry, b: Entry) {
    && p.millis(a.time) <= p.millis(b.time)
    && (p.millis(a.time) == p.millis(b.time) ==> a.time == b.time || p.compare(a.time, b.time) < 0)
    && (a.time == b.time ==>
          if a.stream == b.stream then a.sequence < b.sequence else p.compare(a.stream, b.stream) < 0)
  }

  lemma CompareIsOlder(p: Platform, a: Entry, b: Entry)
    requires Linear(p) && Compare(p, a, b) < 0
    ensures OlderFirst(p, a, b)
  {
  }

  /** The list holds inputs, older first; whatever was left out is older than all that is kept, and nothing is left out
      unless 500 are kept. */
  lemma MergeKeepsNewest(scanLogs: seq<Log>, scopeEvents: seq<ScopeEvent>, p: Platform, show: nat -> string, t: Entry)
    requires Linear(p) && DistinctInputs(scanLogs, scopeEvents)
    ensures var r := MergeActivityLogs(scanLogs, scopeEvents, p, show);
            && |r| <= 500 && (forall i, j :: 0 <= i < j < |r| ==> OlderFirst(p, r[i], r[j]))
            && (t in r ==> ShowsInput(t, scanLogs, scopeEvents, show))
            && (ShowsInput(t, scanLogs, scopeEvents, show) ==>
                  t in r || (|r| == 500 && forall k :: 0 <= k < |r| ==> OlderFirst(p, t, r[k])))
  {
    var es := Entries(scanLogs, scopeEvents, show);
    var sorted := Sort(Before(p), es);
    var r := Last(sorted, LOG_LIMIT);
    SortedEntries(scanLogs, scopeEvents, p, show);
    LastAreGreatest(Before(p), sorted, LOG_LIMIT);
    EntriesShowInputs(scanLogs, scopeEvents, show, t);
    assert t in sorted <==> t in Elems(sorted);
    assert t in es <==> t in Elems(es);
    forall i, j | 0 <= i < j < |r|
      ensures OlderFirst(p, r[i], r[j])
    {
      assert Before(p)(r[i], r[j]);
      CompareIsOlder(p, r[i], r[j]);
    }
    if t in es && t !in r {
      forall k | 0 <= k < |r|
        ensures OlderFirst(p, t, r[k])
      {
        assert r[k] in r;
        CompareIsOlder(p, t, r[k]);
      }
    }
  }

  /** The list depends only on which inputs there are, not on how they are arranged. */
  lemma MergeCanonical(a: seq<Log>, b: seq<Log>, x: seq<ScopeEvent>, y: seq<ScopeEvent>, p: Platform, show: nat -> string)
    requires Linear(p) && DistinctInputs(a, x) && DistinctInputs(b, y) && SameInputs(a, b, x, y)
    ensures MergeActivityLogs(a, x, p, show) == MergeActivityLogs(b, y, p, show)
  {
    SortedEntries(a, x, p, show);
    SortedEntries(b, y, p, show);
    EntriesMembers(a, x, show);
    EntriesMembers(b, y, show);
    assert Elems(Entries(a, x, show)) == Elems(Entries(b, y, show));
    SortedUnique(Before(p), Sort(Before(p), Entries(a, x, show)), Sort(Before(p), Entries(b, y, show)));
  }
}
