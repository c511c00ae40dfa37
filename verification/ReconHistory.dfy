/** Recon activity history: page acceptance and merging (WebUI/src/lib/events.ts)
    and the paging steps of the activity dialog (WebUI/src/App.tsx). */
module ReconHistory {
  import opened Options
  import opened Orders
  import opened Events
  import opened SnapshotParsing

  const PAGE_LIMIT: nat := 200

  datatype Page = Page(logs: seq<Log>, nextBefore: Option<nat>)

  predicate IsRecon(l: Log) {
    l.body.messageCode == Some("recon.activity")
  }

  predicate NewestFirst(a: Log, b: Log) {
    a.id > b.id
  }

  predicate Descending(logs: seq<Log>) {
    forall i, j :: 0 <= i < j < |logs| ==> logs[i].id > logs[j].id
  }

  predicate AllRecon(logs: seq<Log>) {
    forall i :: 0 <= i < |logs| ==> IsRecon(logs[i])
  }

  // ----- Accepting one page -----

  predicate PageOk(page: Page) {
    && |page.logs| <= PAGE_LIMIT && AllRecon(page.logs) && Descending(page.logs)
    && (page.nextBefore.Some? ==>
          page.nextBefore.value != 0 && page.logs != [] && page.logs[|page.logs| - 1].id == page.nextBefore.value)
  }

  /** An entry of the response as the event parser leaves it (None when it rejects the entry) is a recon line of the scan. */
  predicate Listable(entry: Option<ScanEvent>, scanId: string) {
    && entry.Some? && entry.value.scanId == scanId
    && entry.value.payload.LogAppended? && entry.value.payload.body.messageCode == Some("recon.activity")
  }

  /** At most 200 recon lines, newest first, whose last one is the cursor if there is a cursor. */
  predicate Fits(entries: seq<Option<ScanEvent>>, nextBefore: Option<nat>, scanId: string) {
    && |entries| <= 200 && (forall i :: 0 <= i < |entries| ==> Listable(entries[i], scanId))
    && (forall i, j :: 0 <= i < j < |entries| ==> entries[i].value.eventId > entries[j].value.eventId)
    && (nextBefore.Some? ==>
          nextBefore.value != 0 && entries != [] && entries[|entries| - 1].value.eventId == nextBefore.value)
  }

  /** A page is accepted exactly when its entries fit, and then lists them as they were sent. */
  method ParseReconActivityPage(entries: seq<Option<ScanEvent>>, nextBefore: Option<nat>, scanId: string)
    returns (page: Option<Page>)
    ensures page.Some? <==> Fits(entries, nextBefore, scanId)
    ensures page.Some? ==>
              && PageOk(page.value) && page.value.nextBefore == nextBefore && |page.value.logs| == |entries|
              && forall i :: 0 <= i < |entries| ==>
                   && page.value.logs[i].id == entries[i].value.eventId
                   && page.value.logs[i].time == entries[i].value.occurredAt
                   && page.value.logs[i].body == entries[i].value.payload.body
  {
    if |entries| > PAGE_LIMIT || (nextBefore.Some? && nextBefore.value == 0) {
      return None;
    }
    var logs := ListLines(entries, scanId);
    if logs.None? {
      return None;
    }
    var n := 1;
    while n < |logs.value|
      invariant 1 <= n && (logs.value != [] ==> n <= |logs.value|)
      invariant forall i, j :: 0 <= i < j < n && j < |logs.value| ==> logs.value[i].id > logs.value[j].id
    {
      if logs.value[n].id >= logs.value[n - 1].id {
        return None;
      }
      n := n + 1;
    }
    if nextBefore.Some? && (logs.value == [] || logs.value[|logs.value| - 1].id != nextBefore.value) {
      return None;
    }
    page := Some(Page(logs.value, nextBefore));
  }

  /** The lines of a page, unless some entry is none. */
  method ListLines(entries: seq<Option<ScanEvent>>, scanId: string) returns (logs: Option<seq<Log>>)
    ensures logs.Some? <==> forall i :: 0 <= i < |entries| ==> Listable(entries[i], scanId)
    ensures logs.Some? ==>
              && |logs.value| == |entries| && AllRecon(logs.value)
              && forall i :: 0 <= i < |entries| ==>
                   && logs.value[i].id == entries[i].value.eventId
                   && logs.value[i].time == entries[i].value.occurredAt
                   && logs.value[i].body == entries[i].value.payload.body
  {
    var lines: seq<Log> := [];
    for n := 0 to |entries|
      invariant |lines| == n
      invariant forall i :: 0 <= i < n ==> Listable(entries[i], scanId) && lines[i] == LogOf(entries[i].value)
    {
      var entry := entries[n];
      if entry.None? || entry.value.scanId != scanId || !entry.value.payload.LogAppended?
         || entry.value.payload.body.messageCode != Some("recon.activity") {
        assert !Listable(entries[n], scanId);
        return None;
      }
      lines := lines + [LogOf(entry.value)];
    }
    logs := Some(lines);
  }

  // ----- Merging -----

  function ReconOnly(logs: seq<Log>): seq<Log> {
    if logs == [] then []
    else if IsRecon(logs[0]) then [logs[0]] + ReconOnly(logs[1..])
    else ReconOnly(logs[1..])
  }

  /** Live and historic recon lines together, one per id, newest first; on a clash the historic record wins. */
  function MergeReconActivityLogs(snapshotLogs: seq<Log>, historyLogs: seq<Log>): seq<Log> {
    Sort(NewestFirst, LastRecords(ReconOnly(snapshotLogs + historyLogs)))
  }

  lemma {:induction false} ReconOnlyMembers(logs: seq<Log>)
    ensures forall l :: l in ReconOnly(logs) <==> l in logs && IsRecon(l)
  {
    if logs == [] {
    } else {
      ReconOnlyMembers(logs[1..]);
      assert forall l :: l in logs <==> l == logs[0] || l in logs[1..];
    }
  }

  lemma NewestFirstTotal(logs: seq<Log>)
    requires DistinctIds(logs)
    ensures StrictTotalOn(NewestFirst, Elems(logs)) && NoDuplicates(logs)
  {
    DistinctIdsTotal(logs);
    assert forall x, y :: x in Elems(logs) && y in Elems(logs) && x != y ==> ById(x, y) || ById(y, x);
  }

  /** Whatever is merged, the result is strictly descending, so free of duplicate ids, and made of given recon lines. */
  lemma MergeDescends(a: seq<Log>, b: seq<Log>)
    ensures Descending(MergeReconActivityLogs(a, b))
    ensures forall l :: l in MergeReconActivityLogs(a, b) <==> IsLastRecord(ReconOnly(a + b), l)
  {
    var records := LastRecords(ReconOnly(a + b));
    LastRecordsDistinct(ReconOnly(a + b));
    LastRecordsMembers(ReconOnly(a + b));
    NewestFirstTotal(records);
    SortSorts(NewestFirst, records);
    var r := MergeReconActivityLogs(a, b);
    assert forall l :: l in r <==> l in Elems(r);
    assert forall l :: l in records <==> l in Elems(records);
  }

  /** Records that share an id are the same record. */
  ghost predicate Agree(logs: set<Log>) {
    forall x, y :: x in logs && y in logs && x.id == y.id ==> x == y
  }

  ghost function ReconSet(logs: seq<Log>): set<Log> {
    set l | l in logs && IsRecon(l)
  }

  lemma {:induction false} LastOfSomeId(logs: seq<Log>, i: nat) returns (j: nat)
    requires i < |logs|
    ensures i <= j < |logs| && logs[j].id == logs[i].id && LastOfId(logs, j)
    decreases |logs| - i
  {
    if LastOfId(logs, i) {
      j := i;
    } else {
      var k :| i < k < |logs| && logs[k].id == logs[i].id;
      j := LastOfSomeId(logs, k);
    }
  }

  /** With agreeing records nothing is lost: the merge holds exactly the recon lines of both lists. */
  lemma MergeKeepsAll(a: seq<Log>, b: seq<Log>)
    requires Agree(ReconSet(a) + ReconSet(b))
    ensures Elems(MergeReconActivityLogs(a, b)) == ReconSet(a) + ReconSet(b)
  {
    MergeDescends(a, b);
    ReconOnlyMembers(a + b);
    var recon := ReconOnly(a + b);
    var both := ReconSet(a) + ReconSet(b);
    assert forall l :: l in recon <==> l in both;
    forall l | l in both
      ensures l in MergeReconActivityLogs(a, b)
    {
      var i :| 0 <= i < |recon| && recon[i] == l;
      var j := LastOfSomeId(recon, i);
      assert recon[j] in recon && recon[j] == l;
      assert IsLastRecord(recon, l);
    }
  }

  /** A strictly descending list is determined by its members. */
  lemma DescendingUnique(a: seq<Log>, b: seq<Log>)
    requires Descending(a) && Descending(b) && Elems(a) == Elems(b)
    ensures a == b
  {
    assert DistinctIds(a);
    NewestFirstTotal(a);
    SortedUnique(NewestFirst, a, b);
  }

  lemma ReconSetOfMerge(a: seq<Log>, b: seq<Log>)
    requires Agree(ReconSet(a) + ReconSet(b))
    ensures ReconSet(MergeReconActivityLogs(a, b)) == ReconSet(a) + ReconSet(b)
  {
    MergeKeepsAll(a, b);
    var r := MergeReconActivityLogs(a, b);
    assert forall l :: l in r <==> l in Elems(r);
  }

  /** With agreeing records: a line is in the merge exactly when it is in one of the lists and reports recon activity. */
  lemma MergeMembers(a: seq<Log>, b: seq<Log>, l: Log)
    requires Agree(ReconSet(a) + ReconSet(b))
    ensures l in MergeReconActivityLogs(a, b) <==>
              (l in a || l in b) && l.body.messageCode == Some("recon.activity")
  {
    MergeKeepsAll(a, b);
    assert l in MergeReconActivityLogs(a, b) <==> l in Elems(MergeReconActivityLogs(a, b));
  }

  /** Where records clash the historic one is shown. */
  lemma HistoricWins(a: seq<Log>, b: seq<Log>, l: Log, shown: Log)
    requires l in b && l.body.messageCode == Some("recon.activity")
    requires shown in MergeReconActivityLogs(a, b) && shown.id == l.id
    ensures shown in b
  {
    MergeDescends(a, b);
    ReconOnlyAppends(a, b);
    var ra, rb := ReconOnly(a), ReconOnly(b);
    ReconOnlyMembers(b);
    var i :| 0 <= i < |ra + rb| && (ra + rb)[i] == shown && LastOfId(ra + rb, i);
    var j :| 0 <= j < |rb| && rb[j] == l;
    assert (ra + rb)[|ra| + j] == l;
    assert i >= |ra| && rb[i - |ra|] == shown;
  }

  lemma {:induction false} ReconOnlyAppends(a: seq<Log>, b: seq<Log>)
    ensures ReconOnly(a + b) == ReconOnly(a) + ReconOnly(b)
  {
    if a == [] {
      assert a + b == b;
    } else {
      assert (a + b)[1..] == a[1..] + b;
      ReconOnlyAppends(a[1..], b);
    }
  }

  /** Grouping, order and repetition of the merged lists do not matter when records agree. */
  lemma MergeAnyGrouping(a: seq<Log>, b: seq<Log>, c: seq<Log>)
    requires Agree(ReconSet(a) + ReconSet(b) + ReconSet(c))
    ensures MergeReconActivityLogs(MergeReconActivityLogs(a, b), c) == MergeReconActivityLogs(a, MergeReconActivityLogs(b, c))
    ensures MergeReconActivityLogs(a, b) == MergeReconActivityLogs(b, a)
    ensures MergeReconActivityLogs(MergeReconActivityLogs(a, b), b) == MergeReconActivityLogs(a, b)
  {
    var ab, bc := MergeReconActivityLogs(a, b), MergeReconActivityLogs(b, c);
    assert Agree(ReconSet(a) + ReconSet(b)) && Agree(ReconSet(b) + ReconSet(c)) && Agree(ReconSet(b) + ReconSet(a));
    ReconSetOfMerge(a, b);
    ReconSetOfMerge(b, c);
    assert ReconSet(a) + (ReconSet(b) + ReconSet(c)) == ReconSet(a) + ReconSet(b) + ReconSet(c);
    MergeSame(ab, c, a, bc);
    MergeSame(a, b, b, a);
    MergeSame(ab, b, a, b);
  }

  lemma MergeSame(a: seq<Log>, b: seq<Log>, c: seq<Log>, d: seq<Log>)
    requires ReconSet(a) + ReconSet(b) == ReconSet(c) + ReconSet(d) && Agree(ReconSet(a) + ReconSet(b))
    ensures MergeReconActivityLogs(a, b) == MergeReconActivityLogs(c, d)
  {
    MergeKeepsAll(a, b);
    MergeKeepsAll(c, d);
    MergeDescends(a, b);
    MergeDescends(c, d);
    DescendingUnique(MergeReconActivityLogs(a, b), MergeReconActivityLogs(c, d));
  }

  /** Merging an older page appends it. */
  lemma MergeAppends(a: seq<Log>, older: seq<Log>)
    requires Descending(a + older) && AllRecon(a + older)
    ensures MergeReconActivityLogs(a, older) == a + older
  {
    var all := a + older;
    assert forall l :: l in ReconSet(a) + ReconSet(older) <==> l in all;
    assert DistinctIds(all);
    DistinctIdsTotal(all);
    assert Agree(ReconSet(a) + ReconSet(older)) by {
      assert forall x, y :: x in Elems(all) && y in Elems(all) && x != y ==> ById(x, y) || ById(y, x);
    }
    MergeKeepsAll(a, older);
    MergeDescends(a, older);
    DescendingUnique(MergeReconActivityLogs(a, older), all);
  }

  // ----- Paging -----

  /** The page continues the history strictly below "before". */
  predicate Continues(before: nat, page: Page) {
    PageOk(page) && forall i :: 0 <= i < |page.logs| ==> page.logs[i].id < before
  }

  predicate EndsAt(logs: seq<Log>, next: Option<nat>) {
    next.Some? ==> logs != [] && logs[|logs| - 1].id == next.value
  }

  lemma DescendsOn(all: seq<Log>, more: seq<Log>, before: nat)
    requires Descending(all) && all != [] && all[|all| - 1].id == before
    requires Descending(more) && forall i :: 0 <= i < |more| ==> more[i].id < before
    ensures Descending(all + more)
  {
    var r := all + more;
    forall i, j | 0 <= i < j < |r|
      ensures r[i].id > r[j].id
    {
      if j >= |all| {
        assert r[j] == more[j - |all|];
        if i < |all| {
          assert r[i] == all[i] && all[i].id >= before;
        } else {
          assert r[i] == more[i - |all|];
        }
      }
    }
  }

  lemma BelowAppends(all: seq<Log>, page: Page, before: nat)
    requires Descending(all) && AllRecon(all) && EndsAt(all, Some(before)) && Continues(before, page)
    ensures MergeReconActivityLogs(all, page.logs) == all + page.logs
    ensures Descending(all + page.logs) && AllRecon(all + page.logs) && EndsAt(all + page.logs, page.nextBefore)
  {
    DescendsOn(all, page.logs, before);
    MergeAppends(all, page.logs);
  }

  lemma MergeIsRecon(a: seq<Log>, b: seq<Log>)
    ensures Descending(MergeReconActivityLogs(a, b)) && AllRecon(MergeReconActivityLogs(a, b))
  {
    MergeDescends(a, b);
    ReconOnlyMembers(a + b);
    var r := MergeReconActivityLogs(a, b);
    forall i | 0 <= i < |r|
      ensures IsRecon(r[i])
    {
      assert r[i] in r && IsLastRecord(ReconOnly(a + b), r[i]);
    }
  }

  /** What a click goes by: the cursor and the flag as they were last rendered, which may be out of date. */
  datatype Shown = Shown(nextBefore: Option<nat>, loading: bool)

  class History {
    var logs: seq<Log>
    var nextBefore: Option<nat>
    var loading: bool

    ghost predicate Valid()
      reads this
    {
      Descending(logs) && AllRecon(logs) && nextBefore != Some(0)
    }

    constructor ()
      ensures Valid() && logs == [] && nextBefore == None && !loading
    {
      logs, nextBefore, loading := [], None, false;
    }

    /** The dialog is opened, or reloaded: the history is dropped before the first page is asked for. */
    method Open()
      modifies this
      ensures Valid() && logs == [] && nextBefore == None && loading
    {
      logs, nextBefore, loading := [], None, true;
    }

    /** The first page arrives; None stands for a failed request or a rejected page. */
    method FirstPage(page: Option<Page>)
      requires page.Some? ==> PageOk(page.value)
      modifies this
      ensures page.Some? ==> Valid() && logs == page.value.logs && nextBefore == page.value.nextBefore
      ensures page.Some? ==> EndsAt(logs, nextBefore)
      ensures page.None? ==> logs == old(logs) && nextBefore == old(nextBefore)
      ensures old(Valid()) ==> Valid()
      ensures !loading
    {
      if page.Some? {
        logs, nextBefore := page.value.logs, page.value.nextBefore;
      }
      loading := false;
    }

    /** Asks for what lies below the shown cursor, unless nothing is left or a request is shown as out. */
    method RequestMore(shown: Shown) returns (before: Option<nat>)
      requires Valid()
      modifies this`loading
      ensures Valid() && before == if shown.loading then None else shown.nextBefore
      ensures loading == (old(loading) || before.Some?)
    {
      if shown.nextBefore.None? || shown.loading {
        return None;
      }
      loading := true;
      return shown.nextBefore;
    }

    /** The answer to a request below "before", however late. A page is taken if and only if it lies below its own
        request; it is merged into what is there by then, and its cursor becomes the current one. The answer to a request
        below the current cursor is appended and the cursor strictly drops. */
    method ReceiveMore(before: nat, page: Option<Page>) returns (ok: bool)
      requires Valid() && (page.Some? ==> PageOk(page.value))
      modifies this
      ensures Valid() && !loading
      ensures ok <==> page.Some? && Continues(before, page.value)
      ensures ok ==> logs == MergeReconActivityLogs(old(logs), page.value.logs) && nextBefore == page.value.nextBefore
      ensures ok && old(nextBefore) == Some(before) && old(EndsAt(logs, nextBefore)) ==>
                logs == old(logs) + page.value.logs && EndsAt(logs, nextBefore)
      ensures ok && nextBefore.Some? ==> nextBefore.value < before
      ensures !ok ==> logs == old(logs) && nextBefore == old(nextBefore)
    {
      loading := false;
      if page.None? {
        return false;
      }
      var n := 0;
      while n < |page.value.logs|
        invariant n <= |page.value.logs| && forall i :: 0 <= i < n ==> page.value.logs[i].id < before
      {
        if page.value.logs[n].id >= before {
          return false;
        }
        n := n + 1;
      }
      if nextBefore == Some(before) && EndsAt(logs, nextBefore) {
        BelowAppends(logs, page.value, before);
      }
      MergeIsRecon(logs, page.value.logs);
      logs := MergeReconActivityLogs(logs, page.value.logs);
      nextBefore := page.value.nextBefore;
      return true;
    }
  }

  /** A request made twice from one render: its late second answer puts the cursor back up. */
  method LateAnswerRaisesCursor(body: LogBody) returns (h: History, low: Option<nat>)
    requires body.messageCode == Some("recon.activity")
    ensures low == None && h.nextBefore == Some(2)
  {
    var middle, oldest := Page([Log(2, "", body)], Some(2)), Page([Log(1, "", body)], None);
    h := new History();
    h.Open();
    h.FirstPage(Some(Page([Log(3, "", body)], Some(3))));
    var first := h.RequestMore(Shown(Some(3), false));
    var again := h.RequestMore(Shown(Some(3), false));
    assert first == again == Some(3) && Continues(3, middle) && Continues(2, oldest);
    var _ := h.ReceiveMore(3, Some(middle));
    var _ := h.ReceiveMore(2, Some(oldest));
    low := h.nextBefore;
    var _ := h.ReceiveMore(3, Some(middle));
  }

  /** Page "i" was requested below the cursor of the page before it, and accepted. */
  ghost predicate Follows(pages: seq<Page>, i: nat)
    requires 0 < i < |pages|
  {
    pages[i - 1].nextBefore.Some? && Continues(pages[i - 1].nextBefore.value, pages[i])
  }

  /** Pages accepted one after the other. */
  ghost predicate Chain(pages: seq<Page>) {
    && pages != [] && PageOk(pages[0])
    && forall i :: 0 < i < |pages| ==> Follows(pages, i)
  }

  /** What pages 0 .. n give when they are merged one by one. */
  ghost function Collected(pages: seq<Page>, n: nat): seq<Log>
    requires n < |pages|
  {
    if n == 0 then pages[0].logs else MergeReconActivityLogs(Collected(pages, n - 1), pages[n].logs)
  }

  ghost function Concatenated(pages: seq<Page>, n: nat): seq<Log>
    requires n < |pages|
  {
    if n == 0 then pages[0].logs else Concatenated(pages, n - 1) + pages[n].logs
  }

  /** Accepted pages are disjoint and strictly descending: merging them concatenates them. */
  lemma {:induction false} ChainConcatenates(pages: seq<Page>, n: nat)
    requires Chain(pages) && n < |pages|
    ensures Collected(pages, n) == Concatenated(pages, n)
    ensures Descending(Concatenated(pages, n)) && AllRecon(Concatenated(pages, n))
    ensures EndsAt(Concatenated(pages, n), pages[n].nextBefore)
  {
    if n == 0 {
    } else {
      ChainConcatenates(pages, n - 1);
      assert Follows(pages, n);
      BelowAppends(Concatenated(pages, n - 1), pages[n], pages[n - 1].nextBefore.value);
    }
  }

  /** The cursor strictly drops, so there are at most as many further pages as the first cursor says. */
  lemma {:induction false} ChainEnds(pages: seq<Page>, n: nat)
    requires Chain(pages) && n < |pages|
    ensures n + pages[n].nextBefore.GetOr(0) <= pages[0].nextBefore.GetOr(0)
    ensures n > 0 ==> pages[n].nextBefore.GetOr(0) < pages[n - 1].nextBefore.GetOr(0)
  {
    if n == 0 {
    } else {
      ChainEnds(pages, n - 1);
      assert Follows(pages, n) && (n > 1 ==> Follows(pages, n - 1));
    }
  }

  lemma {:induction false} PagesContained(pages: seq<Page>, i: nat, n: nat)
    requires Chain(pages) && i <= n < |pages|
    ensures forall l :: l in pages[i].logs ==> l in Concatenated(pages, n)
  {
    if i == n {
    } else {
      PagesContained(pages, i, n - 1);
    }
  }

  lemma {:induction false} CursorDrops(pages: seq<Page>, i: nat, n: nat)
    requires Chain(pages) && i < n < |pages|
    ensures pages[n].nextBefore.GetOr(0) < pages[i].nextBefore.GetOr(0)
  {
    ChainEnds(pages, n);
    if i == n - 1 {
    } else {
      CursorDrops(pages, i, n - 1);
    }
  }

  /** The cursor is that of page "n", and the answer with page "i" arrives, perhaps again. The cursor strictly drops
      exactly when that page lies further on; one that is already in adds nothing and loses nothing, but puts the
      cursor back to its end. */
  lemma CursorDropsExactlyWhen(pages: seq<Page>, i: nat, n: nat)
    requires Chain(pages) && i < |pages| && n < |pages|
    ensures pages[i].nextBefore.GetOr(0) < pages[n].nextBefore.GetOr(0) <==> i > n
    ensures i <= n ==> MergeReconActivityLogs(Concatenated(pages, n), pages[i].logs) == Concatenated(pages, n)
  {
    if i > n {
      CursorDrops(pages, n, i);
    } else {
      if i < n {
        CursorDrops(pages, i, n);
      }
      var all := Concatenated(pages, n);
      ChainConcatenates(pages, n);
      PagesContained(pages, i, n);
      MergeOfContained(all, pages[i].logs);
    }
  }

  lemma MergeOfContained(all: seq<Log>, some: seq<Log>)
    requires Descending(all) && AllRecon(all) && forall l :: l in some ==> l in all
    ensures MergeReconActivityLogs(all, some) == all
  {
    MergeAppends(all, []);
    assert all + [] == all;
    assert ReconSet(all) + ReconSet(some) == ReconSet(all) + ReconSet([]);
    assert DistinctIds(all);
    DistinctIdsTotal(all);
    assert Agree(ReconSet(all)) by {
      assert forall x, y :: x in Elems(all) && y in Elems(all) && x != y ==> ById(x, y) || ById(y, x);
    }
    assert ReconSet(all) + ReconSet(some) == ReconSet(all);
    MergeSame(all, some, all, []);
  }
}
