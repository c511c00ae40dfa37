# AIDAST dashboard and lab verification

A Dafny model of the stateful parts of AIDAST: how the dashboard client rebuilds a scan from an
event stream that arrives out of order and breaks off, how the long-running supervisor and observer
scripts keep what they have seen, and how the validation lab decides that a finding is refuted.
`dafny verify dfyconfig.toml` checks everything.

## What is modelled

- **Event replay** (`Events`, `SnapshotParsing`, `ReorderBuffer`, `ScanSession`). A snapshot carries a
  cursor. Durable events of a scan are numbered 1, 2, 3, ... by the server; the client gets them early,
  twice or not at all, holds the early ones in a window of 128 ids past the cursor, drops them on disconnect
  and resumes after its cursor. The reference meaning is the plain fold of the durable log. Proved: one call
  is an atomic replay of the run it completes; the state after any accepted deliveries depends only on which
  ids arrived; calls throw exactly when a frame is more than 128 past the run delivered before it; over every
  run of deliveries, refusals, disconnects and reconnects the snapshot is the fold of the log up to the cursor,
  which never goes back; and the fold has the laws the dashboard relies on.
- **Recon history** (`ReconHistory`) and **activity list** (`ActivityMerge`). Page acceptance, paging and merging.
  Sorting is described by what it yields: `Orders.SortedUnique` shows that a set has one arrangement in a strict
  total order, so any correct library sort gives the same list.
- **Recon progress** (`ReconProgress`). The code folds log lines with a hidden set of keys per tool group. It is
  proved equal to an order-free maximum. A group contributes only once it has a line of its own.
- **Scope job polling** (`ScopePoller`). Several requests may be in flight; handlers may stop the poller or throw.
  Safety is stated on traces of visible effects.
- **Soak supervisor** (`SoakSupervisor`, `SoakEvaluation`). The id file, the saved table and the loop. Each write
  is recorded with the number of calls made by then, so it can be traced to the answer behind it; a crash is a cut of
  the list of writes, and a restart begins at the disk the last write made left.
- **Run observer** (`RunObserver`). Rounds of polling with errors that stick and a settle period. Moments are numbered in
  program order, two for each scan of a round, so that a clock reading belongs to one poll; moments at which the program
  does not look at the clock pass unread. The loop computes each row as a function of answers and clock, and acceptance
  is characterised by answers and clock alone.
- **Candidate inventory** (`CallReachability`, `CandidateInventory`, `Publication`). The call-graph search that
  accepts a shared helper, the merge of curated candidates, and the replacement of two linked files.
- **Negative proof** (`NegativeProof`, `AuthProof`, `ProofScorer`). Ports that mark refutations, and the scorer
  that accepts a stored decision by its latest complete batch.
- **Policy compilation** (`HostNames`, `HostPolicy`). Host exclusions and then limits.

Components that change fields are classes whose methods are proved against specification functions; functions
and lemmas on those specifications state what the component is for.

## Where the code and its documentation or its purpose part ways

- `WebUI/README.md:227` says that up to 128 early events are kept. The code keeps at most 127, because the event
  right after the cursor is never held; `ReorderBuffer.HoldsExactly127` reaches that bound.
- A scope poll whose answer is not active is meant to be the last. It is the last exactly when its handler returns or
  stops the poller itself (`ScopePoller.ConclusiveIsLast`); `ScopePoller.ThrowingHandlerKeepsPolling` is an input
  where it is not.
- The supervisor counts saved rows whose id is missing from the id file and drops them when it finishes.
  `SoakSupervisor.SuccessOnDiskExactlyWhen` says exactly when the required number of passes is on disk
  afterwards, `SoakSupervisor.SuccessForgets` makes a run after which it is not.
- A failing row is saved first without the stop mark. A crash loses the stop exactly when it falls between the two saves
  (`SoakSupervisor.StopLostExactlyWhen`); the next run then goes on (`SoakSupervisor.RestartAfterFailure`).
  `SoakSupervisor.StopLost` makes two such runs.
- The history cursor is meant to drop with every accepted page. It does exactly for pages further on
  (`ReconHistory.CursorDropsExactlyWhen`). Two calls from one render, for instance two scripted clicks in one task, can
  bring a late answer that raises it (`ReconHistory.LateAnswerRaisesCursor`), though no line is lost or doubled; the
  button that makes the calls is disabled once a request has been rendered (`WebUI/src/App.tsx:1363`).
- The authorization mark does not require the mark of the lab port underneath; the two are independent.
- A target's own rate limit can be exceeded, exactly as `HostPolicy.RateRaisedExactlyWhen` says;
  `HostPolicy.ScopeRateRaises` is an example.

## Assumptions

- Durable ids are consecutive from 1 (`src/aidast/web/projection.py:773-796`), frames are true copies of logged events,
  heartbeats or frames of other scans, and the server's cursor is at most the end of its log.
- A socket delivers messages only while it is open and closes once; its identity is a number.
- Ids launched by the dashboard are new; every scan ends sooner or later. Both are stated as `FreshIds` and
  `EventuallyTerminal`. The observer's clock is monotone and reaches the deadline.
- SHA-256 is injective: digests are datatype constructors over their content.
- `localeCompare` is a linear order and timestamps are valid (`ActivityMerge.Linear`).
- The plain HTTP port sets neither proof mark. Event payloads are exactly the declared fields.

## Model

| member | source | states |
|---|---|---|
| Orders.SortedUnique | WebUI/src/lib/events.ts:91-95 | a set of records has one strictly sorted arrangement, so the sort's algorithm does not matter |
| Orders.SortSorts | WebUI/src/lib/activity.ts:294-303 | sorting distinct elements by a strict total order rearranges all of them into that order |
| Orders.LastAreGreatest | WebUI/src/lib/activity.ts:303 | cutting a sorted list to its last n keeps the n greatest |
| Events.ReplaySplit | WebUI/src/lib/events.ts:121-133 | replaying two stretches one after the other is replaying their concatenation |
| Events.ReplayCursor | WebUI/src/lib/events.ts:121-123 | whatever is replayed, the cursor never goes back and the scan stays the same |
| Events.TruncateOnce | WebUI/src/lib/events.ts:125 | cutting the log list to 500 at every event equals cutting the full list once at the end |
| Events.LogsShowEvents | WebUI/src/lib/events.ts:125 | every log line shown was there at the start or is an effective appending event's, with that event's id, time and content; of those lines only ones below 500 shown are missing |
| Events.NewestAreShown | WebUI/src/lib/events.ts:125 | an effective appending event that fewer than 500 others follow is shown with its id, time and content |
| Events.ReplayKeepsLogsOrdered | WebUI/src/lib/events.ts:121-133 | log ids stay strictly ascending, at most the cursor, and at most 500 |
| Events.ReplayKeepsFindingsUnique | WebUI/src/lib/events.ts:131 | unique finding ids stay unique |
| Events.EffectiveExactlyWhen | WebUI/src/lib/events.ts:121-122 | an event takes effect if and only if it is durable and above the first cursor and every durable event before it |
| Events.EffectiveAscend | WebUI/src/lib/events.ts:122 | events that take effect have strictly ascending ids, in whatever order the list has them |
| Events.RegisterHoldsLatest | WebUI/src/lib/events.ts:121-133 | whatever one event writes to a field, after any list of events the field holds a value if and only if its highest-numbered effective write wrote it, or nothing wrote it and it was so at the start |
| Events.FindingsHoldLatest | WebUI/src/lib/events.ts:131 | a finding is shown if and only if it is its id's highest-numbered effective update, or was there and its id was never updated |
| Events.FieldsHoldLatest | WebUI/src/lib/events.ts:126-130 | this holds of status, stage, progress, activity, requests and endpoints; a change of stage writes zero progress |
| Events.OptionalsHoldLatest | WebUI/src/lib/events.ts:126-129 | this holds of the optional fields, where an absent value writes nothing |
| SnapshotParsing.SortedLogsMeaning | WebUI/src/lib/events.ts:75 | the parsed log list is strictly ascending, holds the last record given for each id, and omits an id only below 500 higher ones |
| SnapshotParsing.ParsedSnapshotOrdered | WebUI/src/lib/events.ts:67-76 | a snapshot is accepted if and only if it has version 1, the scan asked for, progress from 0 to 100 and no log line above its cursor; it then starts in the ordered state every event keeps, and nothing but the log list was changed |
| ReorderBuffer.HighWater | WebUI/src/lib/events.ts:141-145 | the run the drain loop consumes: every id up to the result is there, the next one is not |
| ReorderBuffer.HighWaterUnique | WebUI/src/lib/events.ts:141-145 | a contiguous run has one end |
| ReorderBuffer.DeliverKeepsWindow | WebUI/src/lib/events.ts:136-147 | between calls each event is held under its own id from two to 128 past the cursor; a call that throws changes nothing; otherwise exactly the ids above the new run wait |
| ReorderBuffer.DrainStep | WebUI/src/lib/events.ts:141-145 | one turn of the drain loop extends the replayed run by one id and keeps the rest |
| ReorderBuffer.Buffer.constructor | WebUI/src/hooks/useScanSocket.ts:42 | a connection starts with nothing held |
| ReorderBuffer.Buffer.Clear | WebUI/src/hooks/useScanSocket.ts:69 | a disconnect drops everything held |
| ReorderBuffer.Buffer.ApplyOrderedEvent | WebUI/src/lib/events.ts:136-147 | the loop ends, and its result, buffer and refusal are those of the atomic replay of the completed run; the window is kept |
| ReorderBuffer.ReplayToIsReplay | WebUI/src/lib/events.ts:121-133 | replaying the log up to an id is the fold of that stretch of the log |
| ReorderBuffer.DeliverReplaysLog | WebUI/src/lib/events.ts:135-147 | one delivery replays the durable log from the old cursor to the new one, each event once |
| ReorderBuffer.Confluence | WebUI/src/lib/events.ts:135-147 | for any accepted arrival sequence the snapshot is the in-order fold over the longest contiguous run delivered, and exactly the delivered ids above it wait |
| ReorderBuffer.ArrivalOrderIrrelevant | WebUI/src/lib/events.ts:135-147 | two accepted arrival sequences with the same ids end in the same snapshot and buffer |
| ReorderBuffer.ThrowsExactlyWhen | WebUI/src/lib/events.ts:138 | some call throws if and only if a durable frame lies more than 128 past the run of the frames before it |
| ReorderBuffer.InOrderReplay | WebUI/src/lib/events.ts:135-147 | replaying the log in order from the cursor never throws, ends at its head and leaves nothing held |
| ReorderBuffer.AtMost127Held | WebUI/src/lib/events.ts:138-145 | at most 127 events are held |
| ReorderBuffer.HoldsExactly127 | WebUI/src/lib/events.ts:138-145 | 127 are held when all of the window but the next event arrives |
| ScanSession.StepKeepsFaithful | WebUI/src/hooks/useScanSocket.ts:60-69 | a delivered, refused or dropped frame keeps the snapshot equal to the fold of the log up to the cursor |
| ScanSession.RunIsFaithful | WebUI/src/hooks/useScanSocket.ts:44-70 | over every run of deliveries, refusals and disconnects the snapshot is the fold of the durable log up to the cursor |
| ScanSession.RunCursorMonotone | WebUI/src/hooks/useScanSocket.ts:44-70 | over every run the cursor never goes back |
| ScanSession.ReconnectCatchesUp | WebUI/src/hooks/useScanSocket.ts:50-70 | from any reachable state, reconnecting after the cursor with an empty buffer and an in-order replay shows the whole log |
| ScanSession.ScanSocket.constructor | WebUI/src/hooks/useScanSocket.ts:34-43 | a client starts without a snapshot |
| ScanSession.Backoff | WebUI/src/hooks/useScanSocket.ts:47 | the base delay is 1, 2, 4, 8, 16 and then always 30 seconds |
| ScanSession.ScanSocket.Schedule | WebUI/src/hooks/useScanSocket.ts:44-49 | a retry is armed with the base delay for the attempts so far, unless disposed |
| ScanSession.ScanSocket.Connect | WebUI/src/hooks/useScanSocket.ts:50-58 | a socket is opened if and only if the client is live, has a snapshot and the platform opens one; it asks for everything after the cursor and starts with an empty buffer; nothing else changes |
| ScanSession.ScanSocket.SnapshotLoaded | WebUI/src/hooks/useScanSocket.ts:78-81 | the loaded snapshot becomes the base of the session unless disposed, and nothing but the connection is changed |
| ScanSession.ScanSocket.SocketOpened | WebUI/src/hooks/useScanSocket.ts:59 | the silence clock restarts and the current socket is open |
| ScanSession.ScanSocket.Message | WebUI/src/hooks/useScanSocket.ts:60-67 | a frame takes one protocol step; a refused one leaves snapshot and buffer and closes the socket; stale sockets are ignored |
| ScanSession.ScanSocket.SocketClosed | WebUI/src/hooks/useScanSocket.ts:69 | only the current socket's close drops the buffer and arms the retry |
| ScanSession.ScanSocket.RetryFires | WebUI/src/hooks/useScanSocket.ts:48-58 | the retry reconnects after the cursor with an empty buffer if and only if the client is live and the platform opens a socket; a live client without one arms the retry again |
| ScanSession.ScanSocket.Watchdog | WebUI/src/hooks/useScanSocket.ts:82-84 | an open socket is closed exactly when silent for 45 seconds or while an event is missing |
| ScanSession.ScanSocket.Dispose | WebUI/src/hooks/useScanSocket.ts:89 | the retry is cancelled and the socket closed, with the snapshot left as it is |
| ReconHistory.ParseReconActivityPage | WebUI/src/lib/events.ts:78-90 | a page is accepted if and only if all entries are recon lines of the scan and the listing is strictly descending, at most 200 and ends at its cursor; each entry is then listed with its id, time and content |
| ReconHistory.ListLines | WebUI/src/lib/events.ts:81-86 | the entries become lines if and only if each is a recon line of the scan, each line having its entry's id, time and content |
| ReconHistory.MergeDescends | WebUI/src/lib/events.ts:91-95 | any merge is strictly descending and holds the last record given for each id |
| ReconHistory.MergeMembers | WebUI/src/lib/events.ts:91-95 | with agreeing records a line is in the merge if and only if it is in one of the lists and reports recon activity |
| ReconHistory.HistoricWins | WebUI/src/lib/events.ts:92-94 | where records clash the historic one is shown |
| ReconHistory.MergeKeepsAll | WebUI/src/lib/events.ts:91-95 | with agreeing records the merge holds exactly the recon lines of both lists |
| ReconHistory.MergeAnyGrouping | WebUI/src/lib/events.ts:91-95 | with agreeing records merging is associative, commutative and absorbs repetition |
| ReconHistory.MergeAppends | WebUI/src/App.tsx:674-675 | merging lines that are all older appends them |
| ReconHistory.History.Open | WebUI/src/App.tsx:635-641 | opening or reloading drops the history before the first page is asked for |
| ReconHistory.History.FirstPage | WebUI/src/App.tsx:642-656 | the first page becomes the history; a failure leaves it as opening left it |
| ReconHistory.History.RequestMore | WebUI/src/App.tsx:659-668 | a request goes out below the cursor as shown, unless none is shown or one is shown as out |
| ReconHistory.History.ReceiveMore | WebUI/src/App.tsx:669-682 | an answer, however late, is taken if and only if it lies below its own request; it is merged and brings its cursor; below the current cursor it is appended and the cursor strictly drops; otherwise nothing changes |
| ReconHistory.ChainConcatenates | WebUI/src/App.tsx:659-682 | merging accepted pages one by one concatenates them, strictly descending and so disjoint |
| ReconHistory.ChainEnds | WebUI/src/App.tsx:659-682 | along accepted pages the cursor strictly drops, so paging ends after at most as many pages as the first cursor |
| ReconHistory.CursorDropsExactlyWhen | WebUI/src/App.tsx:659-682 | with the cursor at the end of one page, the answer with another lowers it if and only if that page lies further on; a page that is already in changes no line |
| ReconHistory.LateAnswerRaisesCursor | WebUI/src/App.tsx:662-676 | a request made twice from one render whose late second answer puts the cursor back up |
| ActivityMerge.CompareTotal | WebUI/src/lib/activity.ts:295-302 | on distinct stream and sequence pairs the comparator is a strict total order |
| ActivityMerge.EntriesDistinct | WebUI/src/lib/activity.ts:269-293 | entries of unique ids have distinct stream and sequence pairs |
| ActivityMerge.MergeKeepsNewest | WebUI/src/lib/activity.ts:265-304 | the list shows only inputs, the oldest first: by milliseconds, then the text of the time, then the sequence within a stream or the stream; it holds at most 500, and an input is left out only when 500 shown ones are newer |
| ActivityMerge.MergeCanonical | WebUI/src/lib/activity.ts:265-304 | the merged list depends only on the set of inputs |
| ReconProgress.ReconCollectionProgress | WebUI/src/lib/activity.ts:86-117 | the fold with its hidden sets gives the greatest of the actual progress, the capped milestones and the levels of the started groups |
| ReconProgress.PhaseMark | WebUI/src/lib/activity.ts:87-114 | which lines count, for which of the seven shares, under which key, and that a leading phase that finished or was skipped fills its share |
| ReconProgress.LinesLiftProgress | WebUI/src/lib/activity.ts:102-115 | a work line lifts progress to its level, 98 at most; a phase line lifts it past the start of its share, and a leading phase that finished or was skipped to the end |
| ReconProgress.OnlyLinesLift | WebUI/src/lib/activity.ts:102-115 | nothing else lifts it: other progress than the actual one is a work line's level, the end of a share whose leading phase finished or was skipped, or the start of a share plus the distinct keys of its lines, one short of its end at most |
| ReconProgress.KeysAreShareKeys | WebUI/src/lib/activity.ts:110-112 | the keys recorded for a group are those of the phase lines of its share |
| ReconProgress.LevelGrows | WebUI/src/lib/activity.ts:110-115 | more lines never lower a group's level |
| ReconProgress.CandidateLevel | WebUI/src/lib/activity.ts:110-115 | the value the fold offers for a line is its group's new level, unless the group was already full |
| ReconProgress.MoreLinesMoreProgress | WebUI/src/lib/activity.ts:86-117 | more lines never lower the progress |
| ReconProgress.OrderAndReplayIrrelevant | WebUI/src/lib/activity.ts:86-117 | reordering or repeating lines gives the same progress |
| ReconProgress.NeverClaimsCompletion | WebUI/src/lib/activity.ts:102-115 | lines alone lift progress to 98 at most |
| ScopePoller.NothingAfterStop | WebUI/src/lib/activity.ts:204-230 | over every interleaving no callback follows the stop, a repeating poller is stopped if and only if its timer was cancelled, and that happens at most once |
| ScopePoller.ConclusiveIsLast | WebUI/src/lib/activity.ts:217-226 | a non-active response is the last callback if and only if its handler returned or stopped the poller; otherwise the error handler follows at once |
| ScopePoller.ThrowingHandlerKeepsPolling | WebUI/src/lib/activity.ts:221-225 | a concrete run where a non-active response is not the last callback |
| ScopePoller.Poller.constructor | WebUI/src/lib/activity.ts:227-229 | the timer is armed when repeating and one request goes out |
| ScopePoller.Poller.StopPolling | WebUI/src/lib/activity.ts:208-216 | stopping acts once: abort, and cancel the timer if there is one; afterwards there is none |
| ScopePoller.Poller.Tick | WebUI/src/lib/activity.ts:227 | a tick sends another request and has no visible effect |
| ScopePoller.Poller.Answered | WebUI/src/lib/activity.ts:217-226 | an answer has the effects of one protocol step; it is passed on unless the poller was stopped, and stops the poller if it is not active or a handler does |
| ScopePoller.Poller.RequestFailed | WebUI/src/lib/activity.ts:223-225 | a failed request is reported if and only if the poller is live |
| Orders.DistinctElems | scripts/run_dashboard_soak.py:220-223 | the id file is read back with every id exactly once |
| SoakSupervisor.NotedRows | scripts/run_dashboard_soak.py:292-293 | the rows saved stand for exactly the results of noted ids |
| SoakSupervisor.TableIsLast | scripts/run_dashboard_soak.py:248 | the table of saved rows holds the last row of each id |
| SoakSupervisor.AtMostOneUnrecorded | scripts/run_dashboard_soak.py:246-302 | along any run at most one noted id lacks a result, and a launch is noted only when none does |
| SoakSupervisor.AcrossRestarts | scripts/run_dashboard_soak.py:199-302 | the same wherever any number of runs is cut off by a crash and started again from the disk this left |
| SoakSupervisor.PassIsProgress | scripts/run_dashboard_soak.py:259-302 | a passing result lowers the measure 2 times unrecorded pending, plus passed pending, plus missing passes |
| SoakSupervisor.PickKeepsWork | scripts/run_dashboard_soak.py:269-277 | taking up a passed id keeps that measure |
| SoakSupervisor.ResultIsLegal | scripts/run_dashboard_soak.py:291-294 | saving a result is a legal write for an id already noted |
| SoakSupervisor.Supervisor.Save | scripts/run_dashboard_soak.py:214-218 | the state file is replaced as a whole and the write is recorded |
| SoakSupervisor.Supervisor.Launch | scripts/run_dashboard_soak.py:225-234 | the launched id is appended before anything else happens |
| SoakSupervisor.Supervisor.FirstUnrecorded | scripts/run_dashboard_soak.py:272 | finds the first pending id without a result if there is one |
| SoakSupervisor.Supervisor.FirstPassed | scripts/run_dashboard_soak.py:274 | finds the first pending id that passed if there is one |
| SoakSupervisor.Supervisor.PickNext | scripts/run_dashboard_soak.py:269-277 | takes up an unrecorded id, else a passed one, else launches, keeping the measure and the loop's facts: among them that each id found passed is pending, current or was answered as passed again |
| SoakSupervisor.Supervisor.Watch | scripts/run_dashboard_soak.py:279-302 | one look at the current scan: waiting changes nothing, a reported pass is saved and lowers the measure, a reported failure is saved and marked |
| SoakSupervisor.Supervisor.StorePass | scripts/run_dashboard_soak.py:291-295 | a reported pass is saved, lowers the measure and keeps what the loop keeps |
| SoakSupervisor.Supervisor.StoreFailure | scripts/run_dashboard_soak.py:291-300 | a reported failure is saved, and then the stop mark |
| SoakSupervisor.Supervisor.Turn | scripts/run_dashboard_soak.py:269-302 | one turn of the loop ends the run in failure, lowers the measure or goes on watching one scan |
| SoakSupervisor.Supervisor.Start | scripts/run_dashboard_soak.py:247-257 | the run starts with the table on disk, marked as running |
| SoakSupervisor.Supervisor.Finish | scripts/run_dashboard_soak.py:261-265 | the closing write keeps the results of noted ids under a completed mark |
| SoakSupervisor.Supervisor.Run | scripts/run_dashboard_soak.py:246-302 | terminates; launches at most the passes missing at the start; writes nothing if and only if a stop mark is there and not overridden; every write between the running mark and the closing one notes a scan just launched or stores what the dashboard just answered; nothing is launched before all noted passes were confirmed again; 0 means enough distinct scans passed, each found so or answered so; 2 otherwise means that the dashboard answered that a scan failed, which was saved and then marked, neither being on any earlier disk of the run; another run can follow |
| SoakSupervisor.RecheckedBeforeLaunch | scripts/run_dashboard_soak.py:269-277 | whatever a run notes is the id just launched, and before that launch the run asked about every noted scan found passed at its start and was answered that it passed |
| SoakSupervisor.SuccessOnDiskExactlyWhen | scripts/run_dashboard_soak.py:260-267 | success leaves the required passes on disk if and only if the passed rows without a noted id number no more than the surplus of passes at the start |
| SoakSupervisor.SuccessForgets | scripts/run_dashboard_soak.py:246-267 | a successful run that leaves no pass on disk |
| SoakSupervisor.FailureFound | scripts/run_dashboard_soak.py:291-300 | the failing result the dashboard reported and the stop mark are the last two writes of a failing run and the first of their kind |
| SoakSupervisor.ResultsAnswered | scripts/run_dashboard_soak.py:279-294 | every result on any disk of a run was there at its start or was reported by the dashboard during the run, before that write |
| SoakSupervisor.MemoryAnswered | scripts/run_dashboard_soak.py:260-291 | every pass that is counted was found at the start or reported during the run |
| SoakSupervisor.StopLostExactlyWhen | scripts/run_dashboard_soak.py:291-300 | after a crash the failing result is on disk without the mark if and only if the crash fell between the two saves |
| SoakSupervisor.RestartAfterFailure | scripts/run_dashboard_soak.py:246-300 | a failing run cut off anywhere after its first write is followed by a run that stops at once if and only if all writes had been made |
| SoakSupervisor.StopLost | scripts/run_dashboard_soak.py:246-300 | on a dashboard where every scan fails: a run ends with 2, its disk goes back to the second-last write, and the next run without the override goes on |
| SoakEvaluation.LanguagesByCase | scripts/run_dashboard_soak.py:126-132 | a language is listed for a case if and only if a report of that case has it |
| SoakEvaluation.ConfirmedIds | scripts/run_dashboard_soak.py:118-124 | exactly the ids of completed confirmed cases |
| SoakEvaluation.EvaluateRun | scripts/run_dashboard_soak.py:108-176 | a scan passes if and only if it finished every stage without errors, decided all of some cases, and reported each confirmed one in both languages with clean titles |
| RunObserver.RememberEvents | scripts/observe_dashboard_runs.py:106-121 | a key is filed if and only if it was before or an error event of the page has it; a page of 500 ends complete coverage |
| RunObserver.Finalize | scripts/observe_dashboard_runs.py:149-186 | takes the artifacts and notes; with a full page behind it, the errors of the ledger or a note that there is none |
| RunObserver.PollRow | scripts/observe_dashboard_runs.py:252-275 | one round for one scan, as the function whose meaning the next rows state |
| RunObserver.PollRound | scripts/observe_dashboard_runs.py:248-275 | a round takes every row and its settle clock one step further and leaves finalized rows alone |
| RunObserver.SettledByComparison | scripts/observe_dashboard_runs.py:262-269 | the comparison with the noted time decides whether the scan has been terminal without a break for the settle period |
| RunObserver.MomentsInOrder | scripts/observe_dashboard_runs.py:247-276 | the moments numbered are those of the program: scan after scan within a round, round after round |
| RunObserver.OpenRowAfter | scripts/observe_dashboard_runs.py:252-275 | while a scan is neither settled nor failed, its row is clean exactly as the pages seen are, and its clock started with its current terminal run |
| RunObserver.DecidingRound | scripts/observe_dashboard_runs.py:252-275 | the first round that settles a scan or fails decides whether its row passes |
| RunObserver.RowGrows | scripts/observe_dashboard_runs.py:106-121 | error events and observation errors never disappear and a finalized row never changes |
| RunObserver.PassesExactlyWhen | scripts/observe_dashboard_runs.py:189-215 | a row passes if and only if some round was the first to find its scan settled, that round found it completed with its artifacts in order, every poll up to it was answered, and no page up to it, nor the ledger if a page was full, showed an error |
| RunObserver.MarkExpired | scripts/observe_dashboard_runs.py:276-280 | past the deadline exactly the open rows get an error |
| RunObserver.AcceptableExactlyWhen | scripts/observe_dashboard_runs.py:205-215 | a document passes if and only if it has 10 to 20 distinct scans and each is accepted so, whether or not the deadline has passed |
| RunObserver.Observe | scripts/observe_dashboard_runs.py:239-285 | terminates in the first round with every scan finalized or the deadline passed; the document passes if and only if 10 to 20 distinct scans were each accepted in one of the rounds, in terms of the answers and the clock at the moments they were polled |
| RunObserver.ErrorsNeverForgiven | scripts/observe_dashboard_runs.py:189-215 | a row that ever had an error never passes later, nor does a document with it |
| RunObserver.AcceptedScansWaited | scripts/observe_dashboard_runs.py:262-269 | an accepted scan was answered without an error event in every round up to the accepting one, as terminal throughout an interval whose clock readings are the settle period apart and as completed at its end; if a page was full the ledger was read and has no error |
| CallReachability.Visit | scripts/build_validation_candidates.py:239-251 | terminates and visits exactly the names that calls and decorators lead to, the least closed set with the start |
| CallReachability.ClosedHoldsReachable | scripts/build_validation_candidates.py:241-251 | a closed set holding the start holds everything reachable |
| CallReachability.CheckSharedHelper | scripts/build_validation_candidates.py:228-253 | the helper is accepted if and only if the anchor lies in it and the route's function reaches it |
| CandidateInventory.AppendCurated | scripts/build_validation_candidates.py:380-387 | scanned rows stay; every row offered is covered by one of its path, method and class; each added row is the first of a new identity and differs in one of the three from every row before it |
| Publication.CheckAnswer | scripts/build_validation_candidates.py:455-478 | an answer is let through if and only if it is acceptable and its candidate is new |
| Publication.BuildAnswerKey | scripts/build_validation_candidates.py:444-499 | a key is built if and only if all answers are acceptable and distinct, and it carries their sources and the inventory's digest |
| Publication.Publisher.BuildInventoryPair | scripts/build_validation_candidates.py:502-522 | a failure leaves both files; success passes through one mixed pair and ends with a matching one |
| Publication.AcceptedPairsMatch | scripts/score_validation_lab.py:139-144 | wherever publishers crash or interleave, a pair is accepted if and only if its key was built from exactly that inventory |
| Publication.MixedPairRejected | scripts/prepare_validation_lab.py:154-159 | a crash between the replacements leaves a pair that is accepted only if the old key was built from the new content |
| NegativeProof.MarksAreJustified | scripts/validation_lab_negative_proof.py:204-235 | over any calls a marked observation is a target answered as its pinned proof demands whose body hash is that of the latest such negative control earlier in its batch |
| NegativeProof.MarksAreGiven | scripts/validation_lab_negative_proof.py:204-235 | every such observation is marked |
| NegativeProof.OthersAreUntouched | scripts/validation_lab_negative_proof.py:204-235 | an observation without the mark comes back as the plain port gave it |
| NegativeProof.LookupRight | scripts/validation_lab_negative_proof.py:216-223 | the hash table holds the hash in force for every batch |
| NegativeProof.LabPort.Execute | scripts/validation_lab_negative_proof.py:204-235 | each answer is the plain one, marked if and only if the calls before it justify the mark |
| AuthProof.AuthMarksAreJustified | scripts/validation_auth_lab.py:488-537 | over any calls a marked observation is a target of a fixture case answered as recorded, and the latest matching positive and negative controls earlier in its batch had their required outcomes |
| AuthProof.AuthMarksAreGiven | scripts/validation_auth_lab.py:488-537 | every such target is marked |
| AuthProof.ControlLookup | scripts/validation_auth_lab.py:510-521 | the table of controls says whether the latest matching control had its required outcome |
| AuthProof.AuthPort.Execute | scripts/validation_auth_lab.py:483-537 | each answer is the lab port's, with the authorization mark added if and only if deserved |
| ProofScorer.DecisionHasProof | scripts/score_validation_lab.py:40-133 | accepts if and only if the digest matches and the highest-numbered complete batch satisfies the whole proof for the status |
| ProofScorer.JudgeBatch | scripts/score_validation_lab.py:67-130 | a complete batch is accepted if and only if it proves the status |
| ProofScorer.CollectDigests | scripts/score_validation_lab.py:68-86 | digests are found if and only if every required attempt is finished, conclusive, allowed and cited exactly once |
| ProofScorer.OlderBatchesIrrelevant | scripts/score_validation_lab.py:56-66 | changing anything below the latest complete batch never changes the verdict |
| ProofScorer.AcceptedDecision | scripts/score_validation_lab.py:40-91 | an accepted decision has the digest stored for it, and its latest complete batch holds a positive and a negative control, each usable and cited once, with and without the signal |
| ProofScorer.AcceptedConfirmation | scripts/score_validation_lab.py:122-130 | in an accepted confirmation all three targets are usable and were observed with the signal, and the case is not underpowered |
| ProofScorer.AcceptedRefutation | scripts/score_validation_lab.py:92-121 | in an accepted refutation every target of that batch is conclusive, allowed, cited once, denied without a signal and carries the pinned proof with the digest, status and URL; the negative control has the same status and digest |
| ProofScorer.ConfirmationAccepted | scripts/score_validation_lab.py:40-130 | whatever has all that is accepted as a confirmation |
| ProofScorer.RefutationAccepted | scripts/score_validation_lab.py:40-121 | whatever has all that is accepted as a refutation |
| HostNames.SortedDistinctCanonical | src/aidast/cli.py:2027 | the sorted set of names depends only on its members |
| HostNames.NormalMeaning | src/aidast/cli.py:2007 | the normal form is the lower-cased name without the dots at its end |
| HostPolicy.ApplyScopeHostExclusions | src/aidast/cli.py:1991-2053 | every policy is narrowed, or the first one the validator rejects fails the whole compilation |
| HostPolicy.ExclusionsEnforced | src/aidast/cli.py:1998-2027 | every hostname-shaped exclusion at or below the root is in the compiled policy |
| HostPolicy.ExcludedExactly | src/aidast/cli.py:1998-2027 | the compiled exclusions are exactly the hostname-shaped assets at or below the root and, for a wildcard, its own exclusions strictly below the root |
| HostPolicy.NarrowedElsewhere | src/aidast/cli.py:2027-2040 | only the two host lists change, the allowed hosts only where a wildcard's apex is excluded, and the exclusions are sorted |
| HostPolicy.ExclusionOrderIrrelevant | src/aidast/cli.py:1998-2027 | order and repetition of exclusions do not matter |
| HostPolicy.ApexReplaced | src/aidast/cli.py:2029-2035 | when a wildcard's apex is excluded no allowed host is the apex, each becomes its subdomain pattern |
| HostPolicy.NarrowingIdempotent | src/aidast/cli.py:1991-2053 | compiling exclusions twice is compiling them once |
| HostPolicy.EffectiveRps | src/aidast/cli.py:2125-2140 | the rate is the least of exactly the ceilings that apply, including the grounded-rate exception |
| HostPolicy.Capped | src/aidast/cli.py:2141-2182 | every other limit is the least of the policy's, the profile's and the caller's, and slow asked-for rates allow one connection |
| HostPolicy.RateRaisedExactlyWhen | src/aidast/cli.py:2125-2140 | the policy's own rate is exceeded if and only if an ungrounded one is replaced by a higher Scope rate and no other ceiling holds it down |
| HostPolicy.ScopeRateRaises | src/aidast/cli.py:2125-2140 | a Scope rate that lifts a lower ungrounded one |
| HostPolicy.WithCaps | src/aidast/cli.py:2183-2189 | only the limits and two switches change; the bug-bounty-safe profile turns both off, any other leaves them |
| HostPolicy.ApplyPolicyCaps | src/aidast/cli.py:2105-2190 | every policy is capped in place under its key |
| HostPolicy.CappingIdempotent | src/aidast/cli.py:2105-2190 | capping twice is capping once |
| HostPolicy.CompilationIdempotent | src/aidast/cli.py:2105-2190 | capping keeps the exclusions, the two steps commute and doing both again changes nothing |

## Left out

- Parsing from JSON: the parser's length, type and safe-integer limits, budget and scope fields of a snapshot, extra payload keys.
- `reconDiscoveries`, `scopeCollectionProgress`, `reduceScopeActivity`, the estimated-progress timers and label tables are small clamps and look-ups and are not modelled.
- HTTP, WebSocket, SQLite and file calls appear only as answers, atomic replacements and appends.
- The random part of the reconnect delay, and the connection state shown to the user.
- SoakSupervisor.Supervisor.Launch: a crash after the server accepted a launch and before its id is appended is not modelled, because the id is then on no disk; blank or partial lines of the id file are not modelled.
- Exceptions out of the supervisor's loop leave a cut of its writes followed by a status mark; they are covered by the lemmas on write chains, not by the method.
- SoakEvaluation.EvaluateRun: ids are text and languages already lower-cased; the details kept beside the verdict are not modelled.
- RunObserver.Finalize: the single artifact requests are reduced to notes, presence and counts; a ledger that fails halfway counts as unreadable, and an exception counts as coming after everything was collected.
- RunObserver.Observe: the written evidence files, their checks column and the sleep between rounds.
- The regular expressions and syntax trees behind the candidates: the call graph and the curated rows are inputs; scanning comments, Juice Shop and control candidates are not modelled.
- Publication.CheckAnswer: a schema violation is reported in answer order, not after all other checks; whitespace is that of ASCII.
- The lab's loaders of proofs and fixtures, exceptions on malformed rows, the extra fields of the authorization mark, the row loop and status classification of the scorer, and the scorers of the other labs.
- `evaluate_impact` and `validate_policy_for_target` are parameters.
- HostPolicy.ApplyPolicyCaps: the alias of the focused-discovery profile; `_complete_executable_recon_plan` and the exact-start-URL narrowing are not modelled.
- HostNames case folding and stripping are those of ASCII.
