# Live copy: a verified model of the execution pipeline

The backend copies the trades of source wallets into live accounts. A source fill is read from
the exchange within a request budget, put into a durable queue, split into ordered parts, and
decided part by part under leases, so that one market of one source is always decided in the
order the source traded it. This project models that pipeline in Dafny and proves what it keeps,
over every input and over every run of its steps.

| Files | What they model |
|---|---|
| `SourceFillOrdering`, `SqlLogic`, `TextOrder` | the canonical order of source fills, as a Python tuple and as four SQL conditions over nullable columns |
| `SourceFillPlanning`, `PreexistingMarkets` | splitting a fill into parts, the plan normaliser, and the marker of exposure that predates copying |
| `LiveCopyLedger`, `LiveCopyStateService` | the tables of one account and each lifecycle service call: as a function on the tables, and as a method that updates them in place and is proved equal to it |
| `LiveCopyProtocol`, `LiveCopyRuns` | workers, leases and whole runs of those calls: completion, lane order, no deadlock |
| `LiveCopyLeases`, `LiveCopyEffects` | when a claim is granted and how long it stands; exactly what plans, completions, restarts and deactivations do to the rows |
| `LiveCopyWork`, `LiveCopyWorkRuns` | the work queue with takeovers, and whole runs of it |
| `FillHistory`, `FillRecords` | the exchange's two page answers, and the records kept of them |
| `FillReading`, `FillImport` | the reader that reports a contiguous window: the requests it makes as a function of the history, and the class that makes them, proved equal to it |
| `FillCoverage`, `FillGaps` | what such a read covers, exactly when its window has no gap, and how far it goes |
| `InfoBudget`, `InfoBudgetRuns`, `InfoLimiter` | the shared token bucket, the local limiter, the fallback between them, and rate bounds over runs |
| `CopyClose` | how much of a copied position a source close takes, over runs of closes |
| `WireRounding` | rounding an order to exchange ticks and lots |
| `JobLock`, `StateCache` | the renewed job lock and the request-time cache |
| `Numbers`, `Options` | helpers: minimum, maximum, powers, and optional values and results |

Conventions. Decimals are exact reals; prices to be rounded are whole numbers of a scale fine
enough to hold them. Time is an integer (microseconds in the ledger, seconds in the queue and the
lock, milliseconds in fills) or a real where the source uses floats. Clocks, database row locks,
Redis answers and HTTP answers are parameters. SQL conditions are evaluated in three-valued
logic and become Boolean only where WHERE, EXISTS and CASE make them so. The account's lifecycle
lock makes every service call one atomic step.

Some promises hold only under a condition; the project proves the exact condition.

- The shared bucket keeps to its rate over every run exactly when an hour's supply fills the
  bucket. With a smaller rate the Redis key expires after an hour untouched and comes back full
  (`InfoBudgetRuns.BoundHoldsExactly`).
- The recovery query orders rows as Python does exactly when the fill's start position is not a
  nonzero number that only Python's `Decimal` can read (`SourceFillOrdering.RecoveryOrderExactly`).
- A nonempty plan passes the normaliser exactly when the fill is not a flip recorded from a flat
  position, whose only part has index one (`SourceFillPlanning.PlanPassesNormalizer`).
- The window reader says no gap is left. It leaves none, whatever it is asked of a history,
  exactly when pages fit the history's bursts of fills that share a millisecond: no page of a
  request by time ends inside a burst, and the newest page does not start inside one unless two
  pages hold the whole history (`FillGaps.GapFreeExactly`). Otherwise one timestamp, the seam, may
  miss fills. A read that ends with its first page claims to be complete and has everything exactly
  when the asked time holds at most a page (`FillGaps.OnePageExactly`); one that goes on oldest
  first, exactly when its last page splits no burst at the window's end and no millisecond is
  overfull (`FillGaps.OldestFirstExactly`); one whose newest page meets the first page, exactly
  when at most two pages of fills follow its start (`FillGaps.MeetExactly`). No request by time can
  pass a page within one millisecond (`FillHistory.ReachableExactly`). A read with the newest page
  of a time that is already past can also end with a window of that single time, which no request
  looked at; the import only asks for the newest page when reading up to now.
- Trimming says it keeps at most the target. It does exactly when the cut does not fall between
  fills of one millisecond (`FillRecords.CutIsTightExactly`).
- A retry mark leaves every decision standing exactly when its part is still undecided
  (`LiveCopyRuns.LateRetryReopensExactly`), so the protocol theorems ask of a marking worker that it
  holds the part's current lease.
- A sum of skipped close ratios is exactly what the source closed when at most one of them is
  positive; with more, an aggregated close takes more than the mirrored share
  (`CopyClose.SumIsExact`).
- The renewal interval leaves time to spare exactly for a ttl above five seconds
  (`JobLock.IntervalLeavesSlack`).

## Model

| member | source | states |
|---|---|---|
| SourceFillOrdering.OrderIsStrictAndTotal | backend/app/services/source_fill_ordering.py:10-56 | the fill order is irreflexive, transitive, and total on fills with different ids |
| SourceFillOrdering.OrderFollowsPosition | backend/app/services/source_fill_ordering.py:18-30 | fills of one millisecond that build a position up or down sort as each starts where the last one ended |
| SourceFillOrdering.ClosesComeFirst | backend/app/services/source_fill_ordering.py:18-30 | earlier milliseconds come first, and within one closes and flips come before opens |
| SourceFillOrdering.NumericIdsCompare | backend/app/services/source_fill_ordering.py:45-51 | numeric ids compare by length and then as text, so 999 comes before 1000 |
| SourceFillOrdering.IdsDecideLast | backend/app/services/source_fill_ordering.py:21-30 | fills equal but for their ids sort numbers first and by value, other ids as text |
| SourceFillOrdering.NumbersAreDigits | backend/app/services/source_fill_ordering.py:45-51 | an id is numeric when it is nonempty and made of the ten digits only |
| SourceFillOrdering.PersistedColumnsKeepTheKey | backend/app/services/live_copy_work_service.py:66-90 | the columns persisted for a fill give back its key tuple |
| SourceFillOrdering.WorkClaimOrder | backend/app/services/live_copy_work_service.py:134-191 | the claim query's order condition over nullable columns is true exactly when the first row's tuple is smaller |
| SourceFillOrdering.BlockerOrder | backend/app/services/live_copy_state_service.py:1225-1278 | the same for the prior-fill blocker, whose disjuncts depend on the bound values |
| SourceFillOrdering.RecoveryOrder | backend/app/services/live_copy_state_service.py:1677-1740 | the same for the recovery query and the owned-position test, for fills both readers understand |
| SourceFillOrdering.RecoveryOrderExactly | backend/app/services/live_copy_state_service.py:1751-1792 | they agree with Python on every row exactly off the fills whose start position only Python can read |
| SourceFillOrdering.WalletExpressionsAgree | backend/app/services/live_copy_state_service.py:1928-1952 | the SQL expressions of a wallet fill equal Python's order components exactly off that family |
| SourceFillOrdering.OneOrderFiveEncodings | backend/app/services/source_fill_ordering.py:10-56 | the work claim, the blocker, the recovery and the owned-position conditions all decide the Python order |
| SourceFillPlanning.PlanConserves | backend/app/services/copy_signal_service.py:587-721 | part sizes and notionals add up exactly to the fill's own |
| SourceFillPlanning.PlannedExactly | backend/app/services/copy_signal_service.py:587-651 | a fill is planned exactly when direction, size, price and notional allow it |
| SourceFillPlanning.PartsAreNamed | backend/app/services/copy_signal_service.py:587-721 | action, side, index, start position and close ratio of every part, by direction |
| SourceFillPlanning.PartsArePriced | backend/app/services/copy_signal_service.py:587-721 | every part carries its size's share of the notional |
| SourceFillPlanning.ShareIsProportional | backend/app/services/copy_signal_service.py:859-862 | that share is to the whole as the part is to the total |
| SourceFillPlanning.PlanComposes | backend/app/services/copy_signal_service.py:587-721 | applying the parts one after the other takes the start position to the source's position after the fill, on exactly the fills whose direction fits their start |
| SourceFillPlanning.NormalizeAdmitsContiguous | backend/app/services/live_copy_state_service.py:995-1013 | a plan is admitted exactly when its indexes are 0 to n-1 once each, and the result is the same parts in index order |
| SourceFillPlanning.NormalizePlan | backend/app/services/live_copy_state_service.py:995-1013 | the scan into a dictionary gives that result, with the first fault met as the error |
| SourceFillPlanning.PlanPassesNormalizer | backend/app/services/copy_signal_service.py:676-721 | a nonempty plan passes exactly when it is not a flip from a flat position |
| PreexistingMarkets.FillMovesMarker | backend/app/services/live_copy_state_service.py:1504-1543 | planning one consistent fill and updating the marker part by part follows the side of the position |
| PreexistingMarkets.MarkerRefinesPosition | backend/app/services/live_copy_state_service.py:1504-1581 | after any consistent history from flat there is a marker exactly when the position is nonzero, with its side, opening time, last fill and fill count |
| PreexistingMarkets.OtherCoinsKeepMarkers | backend/app/services/live_copy_state_service.py:1504-1543 | a coin's history leaves every other coin's marker alone |
| LiveCopyLedger.RecoverySeesWhatClaimSees | backend/app/services/live_copy_state_service.py:1677-1740 | recovery sees a prior unfinished fill exactly when the claim barrier finds a blocker, over the same rows |
| LiveCopyLedger.RetryDelayDoubles | backend/app/services/live_copy_state_service.py:171-182 | the delay starts at the base, doubles with each of the first sixteen failures up to the cap, and never shrinks |
| LiveCopyStateService.LiveCopyStateStore.EnsurePlan | backend/app/services/live_copy_state_service.py:889-992 | persists all missing parts of a plan at once, or refuses a faulty or divergent plan and changes nothing |
| LiveCopyStateService.LiveCopyStateStore.ValidatePersisted | backend/app/services/live_copy_state_service.py:1016-1041 | finds exactly the persisted plans that have other sequences, or that differ in a part |
| LiveCopyStateService.LiveCopyStateStore.ClaimPart | backend/app/services/live_copy_state_service.py:1044-1207 | answers as the claim function, writes `now + max(lease, 1)` seconds into the part only when claimed and changes nothing else, and shows the first blocker in order |
| LiveCopyStateService.LiveCopyStateStore.FindLowerBlocker | backend/app/services/live_copy_state_service.py:1144-1183 | the lowest part of the same fill that is undecided or in flight, if there is one |
| LiveCopyStateService.LiveCopyStateStore.FindPriorBlocker | backend/app/services/live_copy_state_service.py:1210-1314 | a blocker is found exactly when one exists, and it is minimal in the query's order |
| LiveCopyStateService.LiveCopyStateStore.MarkRetryable | backend/app/services/live_copy_state_service.py:1317-1342 | defers one part by the bounded delay and changes nothing else |
| LiveCopyStateService.LiveCopyStateStore.MarkBaselineIgnored | backend/app/services/live_copy_state_service.py:1360-1385 | decides one part as ignored and moves its market's marker when asked to |
| LiveCopyStateService.LiveCopyStateStore.MarkTerminalSkip | backend/app/services/live_copy_state_service.py:1388-1402 | decides one part as skipped, without an order |
| LiveCopyStateService.LiveCopyStateStore.LinkOrder | backend/app/services/live_copy_state_service.py:1405-1434 | links an order of exactly this part, refuses any other |
| LiveCopyStateService.LiveCopyStateStore.CompleteIfDurable | backend/app/services/live_copy_state_service.py:1437-1483 | marks all parts of a fill complete exactly when the whole plan is there and terminal |
| LiveCopyStateService.LiveCopyStateStore.CaptureBaseline | backend/app/services/live_copy_state_service.py:389-409 | the newest imported time and all the fill ids that share it |
| LiveCopyStateService.LiveCopyStateStore.Activate | backend/app/services/live_copy_state_service.py:288-386 | a fresh baseline; closes the unfinished entries it covers, and completes the fills it finished, whatever the order of the rows |
| LiveCopyStateService.LiveCopyStateStore.SweepSource | backend/app/services/live_copy_state_service.py:466-541 | an ineligible source takes no entries, and is deactivated with all unfinished parts closed once flat with no order in flight |
| LiveCopyProtocol.ClaimClearsLane | backend/app/services/live_copy_state_service.py:1136-1193 | a claim through the barrier finds every lane-earlier part, and every lower part of its fill, terminal with its order effect final |
| LiveCopyProtocol.EnsuredPlanIsOldOrNew | backend/app/services/live_copy_state_service.py:925-986 | an accepted plan changes nothing, or adds one whole contiguous fill |
| LiveCopyProtocol.OneUndecidedPartChanges | backend/app/services/live_copy_state_service.py:1317-1434 | a claim or mark of an undecided part keeps plans whole, complete fills terminal and every decision |
| LiveCopyProtocol.RestartIsBulk | backend/app/services/live_copy_state_service.py:325-386 | a restart closes rows or leaves their decision alone, and completes a fill only with all its parts decided |
| LiveCopyProtocol.SweepIsBulk | backend/app/services/live_copy_state_service.py:516-538 | the same for a deactivation, which marks single rows complete |
| LiveCopyProtocol.StepKeepsInv | backend/app/services/live_copy_state_service.py:288-541 | every lifecycle step keeps plans whole, complete fills terminal, orders known and leases live, and undoes no decision and nothing settled |
| LiveCopyLeases.GrantedExactly | backend/app/services/live_copy_state_service.py:1058-1207 | a claim is granted exactly when its source is active, the part is the persisted one and undecided, an entry is fresh or continues a copied position, its lane is clear unless it is a stale entry, and it is due |
| LiveCopyLeases.GrantedClaimStands | backend/app/services/live_copy_state_service.py:1195-1207 | after a claim granted at t for s seconds, in any run that leaves the part to its holder, its lease stays and no claim before t + max(s, 1) seconds changes anything |
| LiveCopyLeases.RetriedPartWaits | backend/app/services/live_copy_state_service.py:1317-1342 | after a retry mark no claim of the part before its delay has passed changes anything |
| LiveCopyLeases.ShownPriorIsFirst | backend/app/services/live_copy_state_service.py:1285-1314 | the blocker shown of an earlier fill is the first in the lane of all that is not settled |
| LiveCopyEffects.PlanAcceptedExactly | backend/app/services/live_copy_state_service.py:911-945 | a plan is accepted exactly when contiguous, its fill has an id, and every persisted part is the plan's own |
| LiveCopyEffects.PlanAddsItsParts | backend/app/services/live_copy_state_service.py:946-992 | an accepted plan adds each missing part untouched with its own action, side and order, and changes no row it finds |
| LiveCopyEffects.PlanAgainChangesNothing | backend/app/services/live_copy_state_service.py:889-992 | bringing an accepted plan again changes nothing |
| LiveCopyEffects.CompletesExactly | backend/app/services/live_copy_state_service.py:1437-1483 | a fill is completed exactly when its whole plan is persisted and decided, and only its parts' flag and schedule change |
| LiveCopyEffects.RestartExactly | backend/app/services/live_copy_state_service.py:288-386 | a restart decides exactly the undecided entries its history covers, completes exactly the fills that leaves decided, and changes nothing else |
| LiveCopyEffects.SweepExactly | backend/app/services/live_copy_state_service.py:466-541 | an active unprotected source is deactivated exactly when it holds no copied position and no order in flight, with every undecided part of it closed and complete |
| LiveCopyRuns.RunKeepsInv | backend/app/services/live_copy_state_service.py:889-1483 | the same over every run of steps that keeps the lease discipline |
| LiveCopyRuns.CompletionInvariant | backend/app/services/live_copy_state_service.py:1437-1483 | in every reachable state the parts of a fill are exactly 0 to n-1 with expected count n, and a complete part only has terminal siblings |
| LiveCopyRuns.LaneBehindClaimStaysSettled | backend/app/services/live_copy_state_service.py:1136-1207 | what lies before a claimed part in its lane is settled at the claim and ever after |
| LiveCopyRuns.LeaseIsExclusive | backend/app/services/live_copy_state_service.py:1189-1207 | until a lease ends a claim of its part changes nothing |
| LiveCopyRuns.DecidedInLaneOrder | backend/app/services/live_copy_state_service.py:1136-1314 | when fills are planned in lane order, decisions under checked leases follow fill key and sequence index, over every run |
| LiveCopyRuns.DecisionsFollowLaneOrder | backend/app/services/live_copy_state_service.py:1136-1314 | the inductive form: everything before a leased or decided part stays settled |
| LiveCopyRuns.BlockedExactly | backend/app/services/live_copy_state_service.py:1136-1193 | past the other refusals, a claim is blocked exactly when something earlier in its lane is not settled |
| LiveCopyRuns.HeadIsNeverBlocked | backend/app/services/live_copy_state_service.py:1136-1193 | every reachable lane with something unsettled has an unsettled head that no claim finds blocked; a decided head waits for its own order alone |
| LiveCopyRuns.LaneMakesProgress | backend/app/services/live_copy_state_service.py:1120-1207 | in every reachable lane of an active source the head either waits for its own order, or a claim of it is granted as soon as it is due, unless it is an entry from before the baseline |
| LiveCopyRuns.LateRetryReopensExactly | backend/app/services/live_copy_state_service.py:1317-1342 | a retry mark keeps every decision exactly when its part is undecided |
| LiveCopyWork.RetryDelayIsMonotone | backend/app/services/live_copy_work_service.py:37-43 | delays never shrink with attempts, start at the base, double with each of the first attempts and stay within 300 seconds |
| LiveCopyWork.EnqueuedAllKeeps | backend/app/services/live_copy_work_service.py:46-90 | enqueueing keeps the unique constraints and every existing row, and leaves each fill of the batch represented |
| LiveCopyWork.EnqueuedRowsAreFresh | backend/app/services/live_copy_work_service.py:46-90 | every fill of a batch is queued, and new rows wait for their first claim from now on |
| LiveCopyWork.CandidateExactly | backend/app/services/live_copy_work_service.py:134-204 | the query's candidates are the unlocked rows that are due, or held for the timeout, and preceded by no unfinished row of their wallet and coin |
| LiveCopyWork.ClaimOrderIsTotal | backend/app/services/live_copy_work_service.py:206-228 | the claim query's ORDER BY is total on rows of different fills |
| LiveCopyWork.LiveCopyWorkQueue.Enqueue | backend/app/services/live_copy_work_service.py:46-63 | inserts the batch, skipping rows that conflict |
| LiveCopyWork.LiveCopyWorkQueue.ClaimNext | backend/app/services/live_copy_work_service.py:93-228 | leases the first ready lane head by source time, wallet and fill order, and leaves an unlocked ready head only for an earlier one |
| LiveCopyWork.LiveCopyWorkQueue.Complete | backend/app/services/live_copy_work_service.py:248-265 | deletes the row only for the owner that holds it |
| LiveCopyWork.LiveCopyWorkQueue.Retry | backend/app/services/live_copy_work_service.py:268-303 | puts the row back with its delay only for the owner that holds it |
| LiveCopyWorkRuns.ProcessingRowsOnlyPrecedeLateWork | backend/app/services/live_copy_work_service.py:134-228 | in every reachable state a same-lane row smaller than a processing row was enqueued after that row's latest claim |
| LiveCopyWorkRuns.OneProcessingPerLane | backend/app/services/live_copy_work_service.py:46-303 | when each enqueue repeats a queued fill or sorts after its lane, a lane never has two processing rows, through takeovers, retries and repeated enqueues |
| LiveCopyWorkRuns.LanesRunInOrder | backend/app/services/live_copy_work_service.py:46-303 | if no enqueue brings back an earlier or completed fill either, rows of a lane complete in key order |
| LiveCopyWorkRuns.TakeoverDisplacesOwner | backend/app/services/live_copy_work_service.py:248-303 | after a takeover every completion and retry of the old owner changes nothing |
| LiveCopyWorkRuns.ClaimsAreApart | backend/app/services/live_copy_work_service.py:102-204 | while the owner neither completes nor retries the row, the next claim of it comes at least max(timeout, 1) seconds after its own |
| LiveCopyWorkRuns.RetriedRowWaits | backend/app/services/live_copy_work_service.py:268-303 | a retried row is not claimed before its delay has passed |
| LiveCopyWorkRuns.OldOwnerIsPowerless | backend/app/services/live_copy_work_service.py:248-303 | the same for any owner that does not hold the row, until it claims it again |
| LiveCopyWorkRuns.OneHeadPerLane | backend/app/services/live_copy_work_service.py:134-204 | every nonempty lane has exactly one row without an earlier unfinished one |
| LiveCopyWorkRuns.HeadBecomesClaimable | backend/app/services/live_copy_work_service.py:126-228 | in every reachable state a lane's head is claimable after the longest delay or the claim timeout |
| FillHistory.ShortPageHoldsRange | backend/app/services/fill_import_service.py:289-294 | a page that is not full holds its whole range |
| FillHistory.FullPageHoldsBelowLast | backend/app/services/fill_import_service.py:289-294 | a full page holds its range below its last time, and at that time unless it cuts the burst |
| FillHistory.ReachableExactly | backend/app/services/fill_import_service.py:292-294 | a fill can be returned by some request by time exactly when less than a page of its own millisecond comes before it |
| FillRecords.SortedRecords | backend/app/services/fill_import_service.py:304-312 | the records of a window, each once, by time and then id |
| FillRecords.CutKeepsTarget | backend/app/services/fill_import_service.py:430-440 | the cut keeps at least the target, and fewer than the target after its first millisecond |
| FillRecords.CutIsTightExactly | backend/app/services/fill_import_service.py:430-440 | the cut keeps at most the target exactly when it does not split a millisecond |
| FillReading.StoredPageAdds | backend/app/services/fill_import_service.py:325-337 | a page adds a record for each new id worth one, and replaces none |
| FillReading.RecordsByMatch | backend/app/services/fill_import_service.py:319-337 | the records are exactly the fills worth one among those the requests returned, one for each id |
| FillReading.RecordedExactly | backend/app/services/fill_import_service.py:78-120 | an id has a record exactly when a fill of it was returned that is of the asked time and market and names coin, side and time |
| FillCoverage.ForwardReads | backend/app/services/fill_import_service.py:261-295 | a complete forward read has its range but where its own requests cut a burst at the end or in an overfull millisecond; an incomplete one has everything up to the last time reached, with the same exceptions there |
| FillCoverage.ForwardAdvances | backend/app/services/fill_import_service.py:273-295 | the starts of its requests strictly advance within the page budget, and its last page is short or ends at the last time reached |
| FillCoverage.ForwardReports | backend/app/services/fill_import_service.py:269-295 | a forward read reports the time of the first fill of its range and the rows of its pages |
| FillCoverage.UntrimmedCovers | backend/app/services/fill_import_service.py:356-427 | every branch covers the window it reports but at its one seam, named by its exit, in overfull milliseconds, and at a past end no request looked at |
| FillCoverage.UntrimmedBudget | backend/app/services/fill_import_service.py:258-259 | the requests of a read stay within the page budget |
| FillGaps.NoCutNoGap | backend/app/services/fill_import_service.py:356-427 | without bursts, or if none of the requests made cut one, the whole window was read |
| FillGaps.OnePageExactly | backend/app/services/fill_import_service.py:289-375 | a read that ends with its first page has everything exactly when the asked time holds at most a page |
| FillGaps.OldestFirstExactly | backend/app/services/fill_import_service.py:378-392 | a read oldest first has its window exactly when its last page splits no burst at the window's end and no millisecond of it is overfull |
| FillGaps.MeetExactly | backend/app/services/fill_import_service.py:394-421 | a read whose newest page reaches back to the first page makes no further request, and has everything exactly when at most two pages of fills follow its start |
| FillGaps.FittingHasNoGap | backend/app/services/fill_import_service.py:356-427 | where pages fit the bursts, every call reads its whole window |
| FillGaps.GapFreeExactly | backend/app/services/fill_import_service.py:356-440 | every call on a history reports, after trimming, a window it has read whole exactly when pages fit the history's bursts |
| FillGaps.UntrimmedGoesFar | backend/app/services/fill_import_service.py:378-427 | a read that does not reach back to its start has used its pages or has its target of records |
| FillGaps.UntrimmedReachesBack | backend/app/services/fill_import_service.py:399-427 | the window holds the newest page and every window read back whole |
| FillGaps.OldestFirstKeepsAll | backend/app/services/fill_import_service.py:378-392 | a read oldest first ends its window no earlier than the last fill it read |
| FillGaps.SpanIsLongest | backend/app/services/fill_import_service.py:408-411 | the span of a window is the longest within the wanted rows at a rate, but at least a minute and never past the first page |
| FillGaps.WindowsFollowDensity | backend/app/services/fill_import_service.py:403-418 | each window read back is sized by the rows and span of the one before |
| FillGaps.NewestDensity | backend/app/services/fill_import_service.py:401 | the first window is sized by the newest page's rows over its time |
| FillImport.FillPageReader.Fetch | backend/app/services/fill_import_service.py:319-337 | counts the page and its rows, and makes the records those of one more request |
| FillImport.FillPageReader.ReadForward | backend/app/services/fill_import_service.py:261-295 | makes exactly the requests of a forward read within both budgets, and gives its result; what they cover and that their starts advance is stated of them |
| FillImport.FillPageReader.ReadNewest | backend/app/services/fill_import_service.py:297-302 | one request, which returns the newest page |
| FillImport.FillPageReader.RecordsBetween | backend/app/services/fill_import_service.py:304-312 | the sorted records of a window |
| FillImport.FillPageReader.TrimToTarget | backend/app/services/fill_import_service.py:430-440 | cuts only the oldest history, keeps the target, and only when there is more than the target |
| FillImport.FillPageReader.ReadUntrimmed | backend/app/services/fill_import_service.py:356-427 | makes exactly the requests the read function names, and reports its window |
| FillImport.FillPageReader.ReadBackwards | backend/app/services/fill_import_service.py:399-427 | reads windows back from the newest page's start until first page, budget or target, as the function says |
| FillImport.FillPageReader.ReadFillWindow | backend/app/services/fill_import_service.py:356-440 | the trimmed window of those requests has every fill but at its seam where a request made cut a burst, in an overfull millisecond, or at a past end no request looked at; it has every fill without bursts or where pages fit them; it is incomplete only with the pages used up or the target met |
| InfoBudget.ReservationCoversUse | backend/app/integrations/hyperliquid_client.py:54-76 | what a response of at most a page uses is within the reservation, and that within the guard |
| InfoBudget.ReservedWeights | backend/app/integrations/hyperliquid_client.py:54-69 | what every type of request reserves |
| InfoBudget.ExtraWeightCountsGroups | backend/app/integrations/hyperliquid_client.py:65-76 | an item-weighted answer costs a unit for every full group of items |
| InfoBudget.SharedInfoBudget.Run | backend/app/integrations/hyperliquid_info_budget.py:48-79 | the script stores the refilled bucket and grants or answers the wait |
| InfoBudget.SharedInfoBudget.Take | backend/app/integrations/hyperliquid_info_budget.py:262-270 | takes within the burst, leaving background callers' floor |
| InfoBudget.SharedInfoBudget.Adjust | backend/app/integrations/hyperliquid_info_budget.py:272-276 | returns unused weight, never beyond the burst |
| InfoBudget.SharedInfoBudget.TakeWhenAlone | backend/app/integrations/hyperliquid_info_budget.py:416-431 | the polling loop of a sole waiter ends with the grant, no later than the first wait it was told |
| InfoBudget.RefillComposes | backend/app/integrations/hyperliquid_info_budget.py:48-79 | refilling in two steps is refilling once, so refused polls cost nothing |
| InfoBudget.RefillsAtRate | backend/app/integrations/hyperliquid_info_budget.py:48-79 | a bucket gains a sixtieth of its rate each second up to the burst, and a missing one is full |
| InfoBudget.GrantedExactly | backend/app/integrations/hyperliquid_info_budget.py:262-270 | a request is granted exactly when the refilled bucket holds its weight, and for background work the reserve on top |
| InfoBudget.WaitIsNeeded | backend/app/integrations/hyperliquid_info_budget.py:65-79 | a try a millisecond before the end of the wait is refused again |
| InfoBudget.WaitIsSufficient | backend/app/integrations/hyperliquid_info_budget.py:65-79 | after the returned wait an undisturbed caller is granted |
| InfoBudget.WaitShrinks | backend/app/integrations/hyperliquid_info_budget.py:416-431 | each capped sleep shortens the wait by exactly what was slept |
| InfoBudget.BackgroundLeavesReserve | backend/app/integrations/hyperliquid_info_budget.py:262-270 | a background grant leaves the whole execution reserve |
| InfoBudgetRuns.RateBound | backend/app/integrations/hyperliquid_info_budget.py:48-79 | over every interleaving, stored tokens, used weight and reserved weight together stay within burst plus rate, with tokens between zero and the burst |
| InfoBudgetRuns.NoWeightIsLost | backend/app/integrations/hyperliquid_info_budget.py:48-79 | over every interleaving, while a bucket is stored, its tokens, used and reserved weight together are at least the burst |
| InfoBudgetRuns.BoundHoldsExactly | backend/app/integrations/hyperliquid_info_budget.py:44-79 | the bound holds for every run exactly when sixty minutes of rate reach the burst |
| InfoBudgetRuns.BackgroundRunsLeaveReserve | backend/app/integrations/hyperliquid_info_budget.py:262-270 | background takes alone never bring the bucket below the reserve |
| InfoLimiter.LocalRateBound | backend/app/integrations/hyperliquid_info_budget.py:82-143 | the analogous bound for the local limiter, however the capacity varies |
| InfoLimiter.LocalUseIsBounded | backend/app/integrations/hyperliquid_info_budget.py:82-143 | used and reserved weight stay within the heaviest request or a quarter minute's weight, plus the rate |
| InfoLimiter.LocalWeightIsKept | backend/app/integrations/hyperliquid_info_budget.py:124-143 | tokens, used and reserved weight together are at least a quarter minute's weight |
| InfoLimiter.LocalGrantedExactly | backend/app/integrations/hyperliquid_info_budget.py:108-122 | a turn grants exactly when the refilled tokens hold the weight and background work finds no execution request waiting |
| InfoLimiter.LocalSleepIsNeeded | backend/app/integrations/hyperliquid_info_budget.py:118-119 | a try before the end of a sleep longer than the shortest is refused |
| InfoLimiter.LocalSleepIsSufficient | backend/app/integrations/hyperliquid_info_budget.py:97-122 | after its sleep an undisturbed caller takes its weight |
| InfoLimiter.HyperliquidInfoRateLimiter.TryTake | backend/app/integrations/hyperliquid_info_budget.py:97-143 | one turn refills to the call's own capacity, then takes or answers the sleep; without a rate it grants at once |
| InfoLimiter.TurnUsesOneBudget | backend/app/integrations/hyperliquid_info_budget.py:395-431 | a turn takes the weight from the budget its grant names and leaves the other alone; an acquire that fell back stays local |
| InfoLimiter.BackgroundYields | backend/app/integrations/hyperliquid_info_budget.py:424-428 | while an execution request waits in the process, background work does not draw on the shared bucket |
| InfoLimiter.FallbackLasts | backend/app/integrations/hyperliquid_info_budget.py:335-337 | a turn Redis does not answer sends every acquire of the next thirty seconds to the local budget, and none after |
| InfoLimiter.HyperliquidInfoBudget.TakeTurn | backend/app/integrations/hyperliquid_info_budget.py:395-445 | one turn of an acquire, which tests the retry window once, yields to waiting execution requests, and falls back once if Redis fails |
| InfoLimiter.HyperliquidInfoBudget.Settle | backend/app/integrations/hyperliquid_info_budget.py:365-382 | a grant is settled with the budget it came from and no other |
| InfoLimiter.PostInfo | backend/app/integrations/hyperliquid_client.py:109-174 | every attempt settles its own reservation once and never above it, whichever way it ends |
| CopyClose.CloseDecidedExactly | backend/app/services/copy_decision.py:227-302 | every reason to refuse a close exactly, and what an accepted one closes |
| CopyClose.AggregatedExactly | backend/app/services/copy_decision.py:305-332 | what aggregation makes of a close below the minimum, and that it leaves other closes alone |
| CopyClose.DecisionExactly | backend/app/services/copy_decision.py:244-332 | a close is put aside exactly when it is not final and even with the closes put aside before it is below the minimum order |
| CopyClose.ExecutedMeetsMinimum | backend/app/services/copy_decision.py:244-332 | an executed close that is not final meets the minimum order |
| CopyClose.StepOutcome | backend/app/services/copy_decision.py:227-332 | what one close does to the copy in each branch, in terms of the share the source closes |
| CopyClose.DirectClosesMirrorExactly | backend/app/services/copy_decision.py:227-302 | while closes are executed the copied share of the source is constant, and the copy is flat exactly when the source is |
| CopyClose.CopyNeverLagsBehind | backend/app/services/copy_decision.py:227-332 | over any run the copy exceeds its mirrored share by at most what is put aside plus an epsilon for each close, and no close takes more than the copy holds |
| CopyClose.RunStaysCovered | backend/app/services/copy_decision.py:227-332 | the inductive form, from any covered state |
| CopyClose.SumCoversProduct | backend/app/services/copy_decision.py:305-332 | a sum of close ratios is at least one minus the product of what they leave |
| CopyClose.SumIsExact | backend/app/services/copy_decision.py:305-332 | the sum is exactly that when at most one ratio is positive, and more otherwise |
| CopyClose.AggregateCoversMirror | backend/app/services/copy_decision.py:305-332 | an aggregated close is at most the available size and at least the exact mirrored amount |
| WireRounding.WirePriceIsOneRounding | backend/app/integrations/hyperliquid_live_client.py:922-953 | five digits and then the tick is one rounding to the coarser power of ten |
| WireRounding.WirePriceBounds | backend/app/integrations/hyperliquid_live_client.py:922-953 | never above a buy limit or below a sell limit, and less than one quantum away |
| WireRounding.WirePriceRelativeError | backend/app/integrations/hyperliquid_live_client.py:922-953 | the relative error is below 1/10000 unless the tick is coarser |
| WireRounding.WirePriceIsIdempotent | backend/app/integrations/hyperliquid_live_client.py:922-953 | rounding a wire price again changes nothing, also where rounding up gains a digit |
| WireRounding.WirePriceFitsExchange | backend/app/integrations/hyperliquid_live_client.py:922-953 | a wire price has at most five significant digits and the tick's decimals |
| WireRounding.ScaleDoesNotMatter | backend/app/integrations/hyperliquid_live_client.py:940-953 | the scale that represents a price does not matter |
| WireRounding.WirePriceKeepsSlippageGuard | backend/app/integrations/hyperliquid_live_client.py:220-229 | the guard checked on the intent bounds the adverse slippage of the wire price |
| WireRounding.GuardExactly | backend/app/integrations/hyperliquid_live_client.py:220-229 | the guard is a distance of at most the allowed basis points of the observed price, both ways |
| WireRounding.WireSizeBounds | backend/app/integrations/hyperliquid_live_client.py:898-904 | a wire size is a lot multiple in its direction, less than a lot away |
| WireRounding.WireMinSizeBounds | backend/app/integrations/hyperliquid_live_client.py:907-919 | the minimum size reaches the notional by less than one lot |
| WireRounding.AdjustedSizeBounds | backend/app/integrations/hyperliquid_live_client.py:682-708 | a lifted order reaches the minimum and exceeds the larger of request and minimum by less than one lot |
| WireRounding.WireOrderIsSound | backend/app/integrations/hyperliquid_live_client.py:655-732 | every accepted order is a lot multiple at the wire price that meets its minimum, within one lot of what was asked |
| WireRounding.WireOrderExactly | backend/app/integrations/hyperliquid_live_client.py:655-732 | when an order is refused and why, when it is lifted, and at which size it is sent |
| WireRounding.LiftedIsLeast | backend/app/integrations/hyperliquid_live_client.py:682-708 | a lifted order is the smallest number of lots that is at least the asked size and reaches the minimum |
| WireRounding.AdjustedEntryReachesMinimum | backend/app/integrations/hyperliquid_live_client.py:682-722 | with adjustment an entry is refused exactly when there is no minimum and its size is below a lot |
| JobLock.JobLocks.TryAcquire | backend/app/services/job_lock_service.py:64-97 | takes a free, own, expired or unrefreshed lock and no other |
| JobLock.JobLocks.Renew | backend/app/services/job_lock_service.py:182-209 | refreshes the row of its owner and no other |
| JobLock.JobLocks.Release | backend/app/services/job_lock_service.py:122-132 | deletes the row of its owner and no other |
| JobLock.JobLocks.IsActive | backend/app/services/job_lock_service.py:100-119 | while a lock is active nobody else may acquire it |
| JobLock.JobLocks.RenewLoop | backend/app/services/job_lock_service.py:151-179 | a loop whose rounds end in time never loses the lock, whatever rivals try meanwhile |
| JobLock.IntervalLeavesSlack | backend/app/services/job_lock_service.py:212-213 | the interval is shorter than the lock stands exactly for a ttl above five |
| JobLock.ThreeIntervalsFit | backend/app/services/job_lock_service.py:212-213 | from fifteen seconds on the lock outlives three intervals, and below half a minute no longer interval would do |
| JobLock.RivalAcquiresExactlyWhenUnrefreshed | backend/app/services/job_lock_service.py:64-97 | a rival may acquire exactly once the ttl or ninety seconds have passed since the last refresh |
| JobLock.KeptLockIsExclusive | backend/app/services/job_lock_service.py:64-213 | over every interleaving a holder that keeps up is never displaced |
| JobLock.DisplacedOwnerIsPowerless | backend/app/services/job_lock_service.py:122-209 | once displaced, every renew or release of the old owner touches no row |
| StateCache.CacheRefinesLog | backend/app/services/copy_execution_cache.py:70-89 | a key holds the last-stored state among those with the latest request since it was dropped, and nothing exactly when nothing was stored since |
| StateCache.CurrentIsUnique | backend/app/services/copy_execution_cache.py:70-82 | there is at most one such store |
| StateCache.CaseIsIgnored | backend/app/services/copy_execution_cache.py:61-62 | wallets are one key exactly when they differ in the case of letters only |
| StateCache.SourceAccountStateCache.Get | backend/app/services/copy_execution_cache.py:61-65 | returns that state exactly when its age from the request start is within the limit |
| StateCache.SourceAccountStateCache.Store | backend/app/services/copy_execution_cache.py:70-82 | a slow fetch never replaces a newer state |
| StateCache.SourceAccountStateCache.Retain | backend/app/services/copy_execution_cache.py:84-89 | deletes exactly the keys of dropped sources |

## Left out

- The lease discipline is an assumption of the run theorems: a mark comes from the part's current lease holder. The mark functions do not check it; `LateRetryReopensExactly` shows what it is needed for.
- Fills without a coin: the import stores none, and the barrier's lookup does not look for earlier fills of an empty coin, so the run theorems ask that planned fills have one.
- Several accounts at once: the lifecycle lock is per account, so one ledger is one account.
- Audit fields, reasons, processing origin, attempt and claim timestamps other than the schedule of a part: no branch reads them.
- How an order becomes resolved (status and materialised fills): an abstract step that only ever resolves.
- Entry sizing, intent payloads, order submission and reconciliation: `trading_core` and `live_trading_service` are not part of this model.
- Loops of the activity sweep over accounts and sources, and the eligibility sets they are given: one ineligible source is one step.
- LIMIT, baseline scope and high-water fields of the recovery query: only its order conditions and its prior-incomplete test are modelled.
- Decimal's 28-digit context and binary floats: exact reals are used; where the code rounds, the rounding is modelled.
- The 32-bit and numeric column widths, Postgres collation and Unicode digits in fill ids: ids are ASCII text compared by code point.
- Redis keeping fewer digits of the tokens than Lua computed, its clock running backwards, and switching the shared budget off during a run.
- CopyClose.CopyNeverLagsBehind: does not bound how far aggregated closes may take the copy below its mirrored share; `SumIsExact` says when they do.
- Fairness between several waiters of one budget: a waiter is only proved to finish when nobody interferes.
- A wallet history that changes while it is being read, and the exchange's limit on how far back it answers.
- Parsing of a raw fill, its stored payload and receive times: a raw fill is reduced to id, time, coin, side and market kind.
- The window in which the copy service sums skipped closes: the sum is carried until a close is executed with it.
- Row locking: rows that other transactions have locked are a parameter of the queue's claim.
- `due_for_refresh`, the allocation snapshot cache and the lane-sync tracker: one comparison settles each.
- Writing records to the database, discovery, analytics, retention, routes and the frontend.
