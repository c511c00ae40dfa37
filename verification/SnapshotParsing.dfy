/** Accepting the server's snapshot (parseSnapshot in WebUI/src/lib/events.ts):
    the log list becomes one record per id, in id order, newest 500. */
module SnapshotParsing {
  import opened Options
  import opened Orders
  import opened Events

  predicate ById(a: Log, b: Log) {
    a.id < b.id
  }

  /** Record "i" is the last one written for its id, the one a Map keyed by id ends up holding. */
  predicate LastOfId(logs: seq<Log>, i: nat)
    requires i < |logs|
  {
    forall j :: i < j < |logs| ==> logs[j].id != logs[i].id
  }

  /** "l" is the record a Map keyed by id holds for its id. */
  ghost predicate IsLastRecord(logs: seq<Log>, l: Log) {
    exists i :: 0 <= i < |logs| && logs[i] == l && LastOfId(logs, i)
  }

  /** The values of a Map filled from the list in order. */
  function LastRecords(logs: seq<Log>): seq<Log> {
    if logs == [] then []
    else if LastOfId(logs, 0) then [logs[0]] + LastRecords(logs[1..])
    else LastRecords(logs[1..])
  }

  function SortedLogs(logs: seq<Log>): seq<Log> {
    Last(Sort(ById, LastRecords(logs)), LOG_LIMIT)
  }

  /** Shape checks that can fail on well-typed data; the accepted value has its logs normalised. */
  function ParseSnapshot(version: int, raw: Snapshot, scanId: string): Option<Snapshot> {
    if version != 1 || raw.scanId != scanId || !(0.0 <= raw.view.progress <= 100.0)
       || exists i :: 0 <= i < |raw.view.logs| && raw.view.logs[i].id > raw.lastEventId
    then None
    else Some(raw.(view := raw.view.(logs := SortedLogs(raw.view.logs))))
  }

  lemma {:induction false} LastRecordsMembers(logs: seq<Log>)
    ensures forall l :: l in LastRecords(logs) <==> IsLastRecord(logs, l)
  {
    if logs == [] {
    } else {
      var rest := logs[1..];
      LastRecordsMembers(rest);
      assert forall i :: 0 < i < |logs| ==> logs[i] == rest[i - 1] && (LastOfId(logs, i) <==> LastOfId(rest, i - 1));
      assert forall i :: 0 <= i < |rest| ==> rest[i] == logs[i + 1] && (LastOfId(rest, i) <==> LastOfId(logs, i + 1));
    }
  }

  predicate DistinctIds(logs: seq<Log>) {
    forall i, j :: 0 <= i < j < |logs| ==> logs[i].id != logs[j].id
  }

  /** Records with distinct ids are totally ordered by id. */
  lemma DistinctIdsTotal(logs: seq<Log>)
    requires DistinctIds(logs)
    ensures StrictTotalOn(ById, Elems(logs)) && NoDuplicates(logs)
  {
    forall x, y | x in Elems(logs) && y in Elems(logs) && x != y
      ensures x.id != y.id
    {
      var i :| 0 <= i < |logs| && logs[i] == x;
      var j :| 0 <= j < |logs| && logs[j] == y;
    }
  }

  lemma {:induction false} LastRecordsDistinct(logs: seq<Log>)
    ensures DistinctIds(LastRecords(logs))
  {
    if logs == [] {
    } else {
      LastRecordsDistinct(logs[1..]);
      LastRecordsMembers(logs[1..]);
      var kept := LastRecords(logs[1..]);
      if LastOfId(logs, 0) {
        forall k | 0 <= k < |kept|
          ensures kept[k].id != logs[0].id
        {
          assert kept[k] in kept;
          var i :| 0 <= i < |logs[1..]| && logs[1..][i] == kept[k];
          assert logs[i + 1] == kept[k];
        }
      }
    }
  }

  /** The list is strictly ascending, every record is the last one given for its id,
      and an id that was given is missing only when 500 higher ids are there. */
  lemma SortedLogsMeaning(logs: seq<Log>)
    ensures var r := SortedLogs(logs);
            && |r| <= 500
            && (forall i, j :: 0 <= i < j < |r| ==> r[i].id < r[j].id)
            && (forall l :: l in r ==> IsLastRecord(logs, l))
            && (forall i :: 0 <= i < |logs| && LastOfId(logs, i) && logs[i] !in r ==>
                  |r| == 500 && forall k :: 0 <= k < |r| ==> logs[i].id < r[k].id)
  {
    SortedRecords(logs);
    LastRecordsMembers(logs);
    var records := LastRecords(logs);
    var sorted := Sort(ById, records);
    LastAreGreatest(ById, sorted, LOG_LIMIT);
    var r := SortedLogs(logs);
    assert forall k :: 0 <= k < |r| ==> r[k] in r && r[k] in sorted;
    forall i | 0 <= i < |logs| && LastOfId(logs, i) && logs[i] !in r
      ensures |r| == LOG_LIMIT && forall k :: 0 <= k < |r| ==> logs[i].id < r[k].id
    {
      assert logs[i] in sorted;
    }
  }

  lemma SortedRecords(logs: seq<Log>)
    ensures SortedBy(ById, Sort(ById, LastRecords(logs)))
    ensures forall l :: l in Sort(ById, LastRecords(logs)) <==> l in LastRecords(logs)
  {
    LastRecordsDistinct(logs);
    var records := LastRecords(logs);
    DistinctIdsTotal(records);
    SortSorts(ById, records);
    assert forall l :: l in Sort(ById, records) <==> l in Elems(Sort(ById, records));
    assert forall l :: l in records <==> l in Elems(records);
  }

  /** Which snapshots are accepted; an accepted one starts in the state every later event keeps, and differs from
      what was sent in its log list only. */
  lemma ParsedSnapshotOrdered(version: int, raw: Snapshot, scanId: string)
    ensures ParseSnapshot(version, raw, scanId).Some? <==>
              && version == 1 && raw.scanId == scanId && 0.0 <= raw.view.progress <= 100.0
              && forall i :: 0 <= i < |raw.view.logs| ==> raw.view.logs[i].id <= raw.lastEventId
    ensures ParseSnapshot(version, raw, scanId).Some? ==>
              var s := ParseSnapshot(version, raw, scanId).value;
              && LogsOrdered(s) && s.scanId == scanId && s.lastEventId == raw.lastEventId
              && s.view == raw.view.(logs := s.view.logs)
  {
    if ParseSnapshot(version, raw, scanId).Some? {
      AcceptedOrdered(version, raw, scanId);
    }
  }

  lemma AcceptedOrdered(version: int, raw: Snapshot, scanId: string)
    requires ParseSnapshot(version, raw, scanId).Some?
    ensures LogsOrdered(ParseSnapshot(version, raw, scanId).value)
  {
    SortedLogsMeaning(raw.view.logs);
    var s := ParseSnapshot(version, raw, scanId).value;
    forall i | 0 <= i < |s.view.logs|
      ensures s.view.logs[i].id <= s.lastEventId
    {
      assert s.view.logs[i] in s.view.logs;
    }
  }
}
