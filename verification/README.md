# Cindral: a model of the broker's state machines

Cindral is a continuous-integration broker. It queues runs for a pool of devices, tells the commit
what became of them, routes pushes to local or hosted runners under a minute budget, decides each
job's own condition, keeps the step records devices report, and stores a build cache. This project
models those parts in Dafny and proves what they keep over every run.

`dafny verify dfyconfig.toml` checks everything.

## How it is laid out

**The job queue.** `JobRecord`, `Leases` and `Scheduling` hold the row of one run, the lease rules and
the choice a claim makes. `VerdictLedger` makes the queue a machine: every transaction, and every
region under the status lock, is one event, and any order of events is a run. Beside each row the
machine keeps what a row alone cannot show: the verdicts drains have in hand, the verdicts the
commit received, and the verdict decided last. `QueueGuarantees` proves what the queue promises over
every run from the empty queue. A status request may be told, be refused, or break off, and may have
reached the commit in each case. `QueueTimes` says what a claim may pick, how long a lost run waits and
how long a lease lasts. `CommitHistory` says how often a verdict is told, and what a request that lands
after it was given up on does to the order. `CheckRuns` compares the check run of a record with the
commit status it was told with, and says what the sentences are. `JobStore` is the queue as an object whose methods rewrite the table; each
request, reclaim, take or post is exactly one event of the machine, and a drain is a run of them.

**Capacity.** `Reservations` counts idle runners against overlapping reservations, as the dispatch
decision does, and proves that the counting always leaves a distinct runner for every reservation;
`ReservationLives` says when a lane is let through and how long a reservation stands.
`Dispatching` is the whole decision: the policy asked first without runners, then with them, then as
if the busy ones were idle, and the reservation behind a local choice.

**Spending.** `Metering` is the ledger of metered dispatches and its monthly ceiling; `Routing` is the
policy that takes a hold, keeps it for the hosted lane and gives it back otherwise. `MeteredMonths`
says what a month counts and `RoutingRules` which lane a request gets.

**Deliveries.** `Deliveries` interleaves any number of requests, replays and restarts over one row of
the delivery ledger. `DeliveryStore` is the ledger as it is written, with one dispatch and one replay
pass over it, and `ReplayEnds` says how each replay ends.

**Conditions.** `Conditions` reads a job's `if:` from its tokens, one function a level of the
descent; `ConditionReader` is the same descent with its loops and its shared set of unread paths, and
`ConditionCompletion` says what a verdict is worth when more becomes known. `ConditionComparisons` says
what operands stand for and when two are equal. `ConditionWords` is a text
as the reader takes it, an operand in parentheses being one word; `ConditionPrinting` has the trees
those words are written from, and `ConditionGrammar` proves that the texts that are read are exactly
the ones a tree was written into. `ConditionGuards` finds the words of guards joined any number of
times, `ConditionChains` when such a chain is read and as which tree, `ConditionMeaning` when that tree
means all the guards, and `LooseGuards` that it otherwise cannot be relied on. `Discovery` inlines
reusable workflows and carries their guards; `CallInputs` is what a call passes on.

**Steps.** `StepLog` cuts a log into steps at the run's markers, `StepBounds` cuts the records to what a
report may carry, and `StepReports` validates what arrives.

**Cache.** `CacheTotals` is the table with the size it stands for and the eviction that keeps it within
a quota; `Cache` is what lookups and uploads make of index and blobs; `CacheGuarantees` proves what
every run keeps; `CacheLifetimes` says how long an entry can be found and read; `CacheStore` is the
store changed in place.

`Prelude` has the result shapes and the text order all of them share.

## What the proofs found

Where the code does not do what its documentation says, the model follows the code, and the lemmas
say exactly when the two part.

- A report settles its row before it posts, and owes the status only when the client names the
  failure. A post that breaks off otherwise, a timeout while the answer is read, leaves the verdict
  nowhere: over every run the newest verdict is accounted for if and only if the report that decided
  it did not break off before the commit had it (`QueueGuarantees.NoVerdictIsLostOrDuplicated`). Such
  a run is three events long (`QueueGuarantees.AVerdictCanBeLost`), and a final verdict lost that way
  is never told (`QueueGuarantees.AFinalVerdictLostStaysLost`).
- A request that timed out may reach the commit after a newer one. The queue's own steps never break
  the order of a commit's numbers, so it holds if and only if every late request lands before a
  higher number has (`CommitHistory.TheOrderHoldsExactlyWhenAllLandInTime`). An error that was given
  up on can be left standing behind the success of the next attempt
  (`CommitHistory.ALateRequestMayLandOnANewerOne`).
- A verdict is documented as posted exactly once. It reaches the commit at most once, and once more
  for each request that failed although it landed and each refused check behind a post
  (`CommitHistory.AVerdictIsToldOnceAndForEachRepeat`); such a run is five events long
  (`CommitHistory.AVerdictMayBeToldTwice`).
- A check's title is documented as the sentence the commit status carries. It is, if and only if the
  run is not running again and the redaction of the record, with the length its log is kept to,
  leaves what the status shows (`CheckRuns.TheTitleIsTheStatusExactlyWhen`). A claim raises
  `attempts` and leaves `last_error`, so the title of a run claimed again counts the attempt under
  way as already lost (`CheckRuns.ATitleMayCountALossTooMany`).
- A cancelled check is documented as a run taken from its device. A device error that spells a lost
  lease on the last attempt is cancelled too (`CheckRuns.ADeviceErrorMayReadAsCancelled`): cancelled
  means that the verdict decided last was a reclaim's or such an error's
  (`CheckRuns.CancelledMeansALostLeaseWasToldLast`).
- The condition reader takes every parenthesis beside a parenthesised single operand, whichever it was
  written for. So `((a) == b)` is refused while `(a) == b` is read
  (`ConditionGuards.AGroupedComparisonOfAGroupIsRefused`), and `((a) || (b)) && c` is silently read as
  `a || b && c` (`ConditionGrammar.AGroupMayFallApart`). With such operands as single words, a text is
  read if and only if its words are some tree's within the depth, and then as that tree
  (`ConditionGrammar.ATextIsReadExactlyWhen`).
- Guards joined by reusable calls are documented as all of them. They are read if and only if the
  parentheses left around them are balanced and the descent has room
  (`ConditionChains.AChainIsReadExactlyWhen`), and can be relied on to mean all of them if and only if
  none that joins with `||` begins or ends with a parenthesised operand
  (`LooseGuards.JoiningKeepsTheMeaningExactlyWhen`): the guard `(a) || (b)` on a call lets the called
  job run on `a` alone (`ConditionMeaning.ALooseCallerRunsIntoTheCalled`).
- A job whose id is another job's inlined path silently takes its place
  (`Discovery.ALaterJobTakesThePlace`). Every chain of calls keeps its job if and only if no two
  chains share a path and differ in what they lead to, and no later job that is not a mapping takes
  a chain's path (`Discovery.ChainsKeepTheirJobsExactlyWhen`); ids without a slash ensure it
  (`Discovery.EveryChainIsInlined`).
- A report is bounded so that no record is lost without being counted. One whose first 64 entries
  hold no valid record loses every valid record behind them, and nothing is stored to carry the count
  (`StepReports.ALeadOfNoiseLosesEveryRecord`); every other report keeps its count
  (`StepReports.EncodingConserves`).
- Metered dispatches are numbered from the largest row left. A second release of a hold frees
  another dispatch's if and only if no row is above the first hold's number and the row just below
  is held, or the number is one (`Metering.ASecondReleaseFreesAnotherHoldExactlyWhen`); a push that
  loses its claim to a settled delivery releases twice (`DeliveryStore.Store.DispatchPush`). Whatever
  happens in between, the second release removes a row exactly when the number was given out again
  and not released since (`Metering.ASecondReleaseRemovesExactlyAReusedHold`).
- The reservation count never overbooks, but it can refuse what could be seated. For given
  reservations it is exact on every list of runners if and only if each asks for at least the
  request's labels (`Reservations.CountsAreExactOnEveryRunnerListExactlyWhen`).
- An upload larger than the whole store is accepted, reported as created, and evicted before the
  answer is sent. A new entry stays if and only if both quotas have room for it beside everything not
  older (`CacheGuarantees.ANewEntryStaysExactlyWhenThereIsRoom`).

## Model

| member | source | states |
|---|---|---|
| JobRecord.BackoffGrowsToItsCap | src/cindral/retry.py:17-19 | a later attempt never waits less than an earlier one, and every wait lies between the base and the cap |
| Leases.ReclaimTakesExactlyWhatTheDeviceLost | src/cindral/lease_reclaim.py:59-78 | at one instant the reclaim takes exactly the running leases whose device would be refused a renewal, the lease check, and any report it could make |
| Leases.GraceIsTheExactWindowAHeartbeatBuys | src/cindral/lease_reclaim.py:59-78 | a device announcing itself now keeps a lease exactly until the grace past its expiry has run out; from then on no presence table at any later time saves it |
| Scheduling.FirstExists | src/cindral/scheduling.py:13-30 | among any nonempty set of waiting runs one comes first: least loaded repository, then oldest, then smallest id |
| Scheduling.PickIsFair | src/cindral/scheduling.py:13-30 | whenever some run is eligible one is picked; no eligible repository is less loaded than its own, and within an equal load none is older |
| VerdictLedger.ReportKeeps | src/cindral/jobapi.py:309-368 | a report keeps one custodian per verdict, an ordered record on the commit and a newest verdict that names the row; one that settles its row leaves its verdict accounted for exactly unless its post broke off before the commit had it |
| VerdictLedger.ReclaimKeeps | src/cindral/lease_reclaim.py:144-175 | a reclaim keeps the same invariant, and every run it takes has its verdict accounted for afterwards |
| VerdictLedger.TakeKeeps | src/cindral/status_ledger.py:39-53 | taking an owed verdict moves custody from the row to the drain without making a second copy or losing one |
| VerdictLedger.PostKeeps | src/cindral/lease_reclaim.py:316-343 | a drain's post that is told, fails in any way, lands although it failed, or finds its verdict outdated loses nothing: only the current number reaches the commit, and a failed one goes back to the row |
| VerdictLedger.CheckKeeps | src/cindral/lease_reclaim.py:284-313 | a check that fails after the post puts the verdict back only where nothing newer took its place |
| VerdictLedger.StepKeeps | src/cindral/jobs.py:96-316 | every event of the queue, a report that breaks off included, keeps every row's invariant and one row per delivery |
| VerdictLedger.EveryRunKeepsTheInvariant | src/cindral/lease_reclaim.py:284-343 | so does every run, in whatever order claims, renewals, reports, reclaims and any number of drains fall, and however each post ends |
| QueueGuarantees.WallOnlyGrows | src/cindral/lease_reclaim.py:316-343 | what the commit received is never taken back or reordered |
| QueueGuarantees.NoOlderVerdictLandsLater | src/cindral/lease_reclaim.py:316-343 | in any run the numbers under which one job's verdicts reach the commit never decrease, and equal numbers carry the same verdict |
| CommitHistory.AVerdictIsToldOnceAndForEachRepeat | src/cindral/status_ledger.py:39-53 | from the event that decides a verdict until the next one of its job, the commit receives that verdict and no other, at most once, and once more for each request that failed although it landed and each refused check behind a post |
| CommitHistory.AVerdictMayBeToldTwice | src/cindral/jobapi.py:270-295 | a report refused although it landed is owed and told again under the next number, reached from the empty queue |
| CommitHistory.ANumberIsToldOnceAndForEachRepeat | src/cindral/lease_reclaim.py:316-343 | counted by number: over any run each number of a job reaches the commit at most once, and once more for each failed post of it that landed and each refused check behind it |
| CommitHistory.ATakeComesTo | src/cindral/status_ledger.py:39-53 | taking puts every owed verdict in hand under its number and leaves no row owing anything |
| CommitHistory.APostComesTo | src/cindral/lease_reclaim.py:316-343 | a drain's post reaches the commit exactly when its number is still the row's and the request landed, and what then becomes of the verdict, with no other job touched |
| CommitHistory.ACheckComesTo | src/cindral/lease_reclaim.py:284-313 | a check takes the verdict out of hand and puts it back exactly when refused, current and nothing else owed |
| CommitHistory.AStepKeepsTheOrder | src/cindral/lease_reclaim.py:316-343 | with late landings, every step of the queue keeps the commit's numbers in order, and a late request does exactly when it lands before a higher number |
| CommitHistory.TheOrderHoldsExactlyWhenAllLandInTime | src/cindral/github.py:421-428 | over any queue events and late landings the commit's numbers never decrease if and only if each late request lands before a higher number has |
| CommitHistory.ALateRequestMayLandOnANewerOne | src/cindral/github.py:421-428 | from the empty queue, an error report given up on lands after the success of the next attempt, and the commit's last status is the older one |
| QueueGuarantees.NoVerdictIsLostOrDuplicated | src/cindral/status_ledger.py:39-98 | over every run the newest verdict is on the commit, in its row, or unposted in a drain's hand if and only if the report that decided it did not break off; row and hand never hold it twice, two hands never share a number, and a row owes nothing older |
| QueueGuarantees.AccountedUnlessBrokenOff | src/cindral/jobapi.py:345-361 | the same from any sound state: a verdict once accounted for stays so, and a lost one stays lost, until the next report or reclaim decides another |
| QueueGuarantees.ABrokenOffReportLosesItsVerdict | src/cindral/jobapi.py:270-295 | wherever a device holds a run, a report whose post breaks off ends the run with its verdict nowhere |
| QueueGuarantees.AVerdictCanBeLost | src/cindral/github.py:421-428 | such a state is reached from the empty queue by an enqueue, a claim and a report, for any job, device and exit code |
| QueueGuarantees.AFinalVerdictLostStaysLost | src/cindral/verdicts.py:33-48 | a final verdict that was lost is never told: whatever runs afterwards the commit receives nothing more for that job |
| QueueGuarantees.EveryCurrentVerdictNamesTheRow | src/cindral/check_summary.py:65-78 | a verdict that is owed, in hand or published under the current number names exactly the state of the row as it is now, even after the run was claimed again |
| QueueGuarantees.ASettledQueueHasToldTheCommit | src/cindral/lease_reclaim.py:284-305 | once nothing is owed or in hand, the last status the commit received is the newest verdict and names the row if and only if the report that decided it did not break off |
| QueueGuarantees.EveryRowStep | src/cindral/verdicts.py:16-84 | each event moves a row only along the life of a run: claimed, released, parked, ended, or untouched |
| QueueGuarantees.ChangesAreBounded | src/cindral/retry.py:22-24 | over any run a row changes stage at most as often as its remaining rank, and its claims are bounded with it |
| QueueGuarantees.AJobIsHandedOutAtMostThreeTimes | src/cindral/retry.py:22-24 | from its enqueue on, a run is claimed at most three times in any run |
| QueueGuarantees.SettledIsForGood | src/cindral/verdicts.py:33-48 | a run that succeeded, failed or is dead never changes stage again |
| QueueGuarantees.AtMostOneExitCode | src/cindral/verdicts.py:33-79 | no run of events records a second exit code for the same job |
| QueueGuarantees.ALostRunStaysLostToItsDevice | src/cindral/jobs.py:195-228 | a run a device does not hold can be neither renewed nor reported by it after any run of events in which that device does not claim it again, whoever else claims it meanwhile |
| QueueGuarantees.ReclaimTakesEverySpentLease | src/cindral/lease_reclaim.py:144-175 | a reclaim changes exactly the rows running on a lease spent at that instant: each is parked or back in the queue without a device, owing the loss under the next number |
| QueueGuarantees.AClaimRunsOneMore | src/cindral/jobs.py:150-193 | a claim that hands out a run adds one to the running count of its repository and to no other |
| QueueGuarantees.FewerRunWithoutAClaim | src/cindral/jobs.py:195-274 | nothing but a claim ever raises the number of running rows of a repository |
| QueueGuarantees.TheCapHolds | src/cindral/scheduling.py:13-30 | when every claim uses the same cap, no repository ever runs more than the cap |
| QueueTimes.AClaimPicksExactlyWhatMayRun | src/cindral/jobs.py:150-193 | a claim with a lease hands out a waiting run that is due, asks only for labels the device offers and belongs to a repository running fewer than the cap, and hands out none exactly when there is none |
| QueueTimes.AnEmptyClaimHandsOutNothing | src/cindral/jobs.py:150-193 | a claim without a positive lease, or under a cap of none, changes no row |
| QueueTimes.AnEnqueuedRunMayBeClaimed | src/cindral/jobs.py:96-141 | an enqueue adds one run with no attempt made, due at once and for exactly the devices that offer its labels, created at that instant, and changes no other |
| QueueTimes.TheWaitDoubles | src/cindral/retry.py:17-19 | the wait is thirty seconds after one attempt and doubles with each further one up to three hundred |
| QueueTimes.ALostRunIsDueAfterItsWait | src/cindral/lease_reclaim.py:86-118 | a run a report or a reclaim puts back is due thirty seconds later after its first attempt and sixty after its second, and after its third is parked; only an error or a reclaim puts a run back |
| QueueTimes.AReclaimedRunSaysWhy | src/cindral/lease_reclaim.py:144-175 | a run a reclaim takes back keeps the words of a lost lease as its error, and the commit is told them with the attempts made or the one to come |
| QueueTimes.ARunWaitsUntilItIsDue | src/cindral/jobs.py:150-193 | through any events whose claims are made before it is due nobody is handed a waiting run and its wait is unchanged; from then on exactly the devices that offer its labels may have it |
| QueueTimes.AClaimGivesItsLease | src/cindral/jobs.py:150-193 | the run a claim picks is held by that device for the lease it asked for, with one attempt more |
| QueueTimes.ALeaseIsWorthItsTime | src/cindral/lease_reclaim.py:59-78 | a held run may be acted on by its device until the lease ends, by nobody from a minute later, and in between exactly while the device was heard of within the minute |
| QueueTimes.ALeaseIsNotTakenEarly | src/cindral/lease_reclaim.py:144-175 | whatever else happens, a device that says nothing of its run holds it until a reclaim comes after the lease ran out |
| QueueTimes.ARenewalGivesItsLease | src/cindral/jobs.py:195-217 | a renewal with a positive lease by the device that may still act sets the lease from now and nothing else, and any other changes nothing |
| QueueTimes.AReportIsRecorded | src/cindral/verdicts.py:16-84 | a report of the device that holds the run puts it back or parks it when it names an error, whatever exit code comes along, and otherwise ends it with that exit code, keeping 200 characters of an error and 65536 of a log |
| QueueTimes.AReportWithoutALeaseIsRefused | src/cindral/verdicts.py:33-52 | a report of anyone else changes nothing of the run |
| QueueTimes.AHeartbeatKeepsWhoWasHeardOf | src/cindral/agents_table.py:15-42 | a heartbeat notes its device at that instant and keeps every other exactly when it was heard of within thirty days |
| QueueTimes.AHeartbeatConcernsItsDevice | src/cindral/agents_table.py:15-42 | so it neither takes a run from another device nor saves one |
| CheckRuns.EveryRunIsRemembered | src/cindral/lease_reclaim.py:86-118 | at every stage of any run the row's attempts, error and exit code are those the newest verdict was told with, up to the one attempt a claim adds |
| CheckRuns.TheTitleIsTheStatusExactlyWhen | src/cindral/check_summary.py:109-143 | a check's title, made from the redacted record, is the sentence of the newest status if and only if the run is not running again and redaction, with the length a log is kept to, leaves the part of the error or detail that the status shows |
| CheckRuns.ATitleMayCountALossTooMany | src/cindral/check_summary.py:115-121 | a run lost once and claimed again is reached from the empty queue, and its title counts a second loss where the status counts one |
| CheckRuns.ATitleShowsWhatRedactionLeaves | src/cindral/redact.py:80-92 | any error a device reports is kept by a released run that is reached from the empty queue, whose title is its status exactly when redaction leaves what the status shows of it |
| CheckRuns.AConclusionIsAFinalStatus | src/cindral/check_summary.py:81-106 | a check has a conclusion exactly when the newest status is final: success when it passed, timed out on the exit code that means it, cancelled when a run out of attempts keeps the text of a lost lease as its error |
| CheckRuns.CancelledMeansALostLeaseWasToldLast | src/cindral/check_summary.py:81-106 | over every run a check is cancelled if and only if the run is dead and the event that decided its verdict last is a reclaim, or a report whose error is the text of a lost lease |
| CheckRuns.CancelledMeansAReclaimTookTheLastAttempt | src/cindral/check_summary.py:81-106 | in particular, where no device ever reports that text, exactly the runs whose last attempt a reclaim took are cancelled |
| CheckRuns.ADeviceErrorMayReadAsCancelled | src/cindral/check_summary.py:102-106 | a device holding the last attempt that reports the text of a lost lease has its check cancelled, however its post ends |
| CheckRuns.TheSentencesSay | src/cindral/status_text.py:26-70 | the four sentences a commit is told, with their numbers in decimal and cut to 140 characters |
| CheckRuns.ATitleBeforeAnyVerdict | src/cindral/check_summary.py:109-122 | until a verdict is decided a check's title says that the run is queued, or in progress |
| JobStore.Store.RecordHeartbeat | src/cindral/agents_table.py:15-42 | announcing a device forgets the stale ones and changes no row |
| JobStore.Store.Enqueue | src/cindral/jobs.py:96-141 | a named delivery already queued is answered with its run and inserts nothing; any other clash, of an id or of the empty delivery, raises; otherwise one pending row is added |
| JobStore.Store.Claim | src/cindral/jobs.py:150-193 | the claim is the machine's event: it refuses a lease or cap that is not positive, and otherwise answers with the run the scheduler picks |
| JobStore.Store.RenewLease | src/cindral/jobs.py:195-217 | a lease that is not positive raises; otherwise the lease is renewed exactly when the device still holds it |
| JobStore.Store.ReleaseRow | src/cindral/lease_reclaim.py:86-118 | the row as a release leaves it: back in the queue or parked, without device or lease, owing at most the verdict given |
| JobStore.Store.SettleRun | src/cindral/verdicts.py:16-84 | a report is refused for the first of unknown run, foreign lease, spent lease or missing verdict, and leaves the table alone; otherwise it ends or releases the run |
| JobStore.Store.ReportRun | src/cindral/jobapi.py:309-368 | settling, posting and owing under the lock are one report event, denied exactly when the row cannot be settled, and raised exactly when the post breaks off |
| JobStore.Store.ReclaimExpired | src/cindral/lease_reclaim.py:144-175 | the loop over spent leases is one reclaim event, and its counters count the released runs and those whose device was heard of within the minute |
| JobStore.Store.ClaimOwedStatuses | src/cindral/status_ledger.py:39-53 | the drain is handed every verdict the queue owes, with its number, and no row keeps one |
| JobStore.Store.DiscardStatus | src/cindral/status_ledger.py:56-66 | an owed verdict is dropped only while it is the one that was read |
| JobStore.Store.Restore | src/cindral/status_ledger.py:69-85 | a verdict goes back only into a row that owes nothing and still has its number |
| JobStore.Store.PostIfCurrent | src/cindral/lease_reclaim.py:316-343 | a verdict in hand is told exactly when its number is still the row's and the post succeeds; any failure puts it back under the same guard |
| JobStore.Store.FinishCheck | src/cindral/lease_reclaim.py:284-313 | the check behind a post ends custody, or puts the verdict back when refused |
| JobStore.Store.DrainOwed | src/cindral/lease_reclaim.py:284-305 | one drain alone leaves every job as GitHub's reply to its own verdict decides, and no job's reply touches another's row |
| JobStore.Store.ReclaimTick | src/cindral/lease_reclaim.py:229-281 | a tick is a reclaim followed by a drain of everything then owed, as one run of events |
| Reservations.RoomMeansAFreeRunner | src/cindral/dispatch_capacity.py:10-22 | when the counts leave room, some idle runner with the labels is free in every way the reservations can be seated |
| Reservations.AGrantKeepsTheMatching | src/cindral/service.py:331-370 | a grant made on the two counts can be seated together with every reservation already held |
| Reservations.CountsAreExactForNestedLabels | src/cindral/dispatch_capacity.py:10-22 | where every overlapping reservation asks for at least the request's labels, the counts leave room if and only if one more can be seated |
| Reservations.WithoutNestingARefusalIsCautious | src/cindral/service.py:331-370 | for any reservations one of which does not ask for all the request's labels there are runners on which that one overlaps, everything held and the request could be seated, and the request is refused |
| Reservations.CountsAreExactOnEveryRunnerListExactlyWhen | src/cindral/dispatch_capacity.py:10-22 | the counts decide what can be seated on every list of runners if and only if every reservation asks for at least the request's labels |
| Reservations.EveryReservationHasARunner | src/cindral/service.py:331-392 | while the runner lists are fixed, after any grants, expiries and releases each repository's reservations have distinct idle runners that carry their labels |
| Reservations.Capacity.DispatchDecision | src/cindral/service.py:300-370 | a decision expires, counts and records in the one order the machine uses, and says exactly which reservation it made |
| Reservations.Capacity.ExpireReservations | src/cindral/service.py:372-382 | an id is left in the repository's book if and only if its time is still to come, unchanged; a book left empty keeps no entry, and no other repository's is touched |
| Reservations.Capacity.ReleaseReservation | src/cindral/service.py:384-392 | one reservation goes, whatever the runners are, and releasing none changes nothing |
| ReservationLives.ALocalLaneIsAdmittedExactlyWhen | src/cindral/service.py:331-370 | a hosted lane is let through and reserves nothing; a local one is refused exactly when there is no room and an idle runner could serve it or waiting is not allowed, and reserves exactly when there is room and a candidate |
| ReservationLives.AnEventEndsOrLeaves | src/cindral/service.py:372-392 | one event leaves a reservation as it is unless it is its release, a decision of its repository at its time or later, or a grant under its id |
| ReservationLives.AGrantStandsForItsHold | src/cindral/service.py:331-382 | over any run without those, a reservation granted at some time for some seconds stands unchanged |
| ReservationLives.TheOnlyRunnerIsNotGrantedTwice | src/cindral/service.py:331-370 | while a reservation stands on the only idle runner that could serve it with a request, the request is refused and the reservation stays |
| Dispatching.TheFreedAreTheOnline | src/cindral/dispatch_capacity.py:25-35 | the second question is asked of exactly the online runners, each as if idle |
| Dispatching.ABusyRunnerIsWaitedFor | src/cindral/dispatch_capacity.py:25-35 | without a ceiling, a named local lane is given exactly when a runner may take it now, or waiting is allowed and one would serve it if it were idle |
| Dispatching.ADecisionHoldsOneThing | src/cindral/service.py:300-370 | a decision holds one new ledger row for the hosted lane, or one runner counted free for a local one, or nothing; one that is not sent leaves the ledger as it was and reserves nothing |
| Dispatching.ADecisionKeepsEverySeat | src/cindral/service.py:300-370 | whichever lane the policy finds, distinct idle runners for the reservations before the decision mean distinct ones after it |
| Dispatching.ChooseWebhookLane | src/cindral/dispatch_capacity.py:25-35 | the policy is asked a second time, with the online runners as if idle, exactly when the first choice fails and waiting is allowed |
| Dispatching.DispatchDecision | src/cindral/service.py:300-370 | policy, ledger and capacity in place give the decision those lemmas are about, and no other repository's reservations change |
| Metering.AHoldStaysUnder | src/cindral/budget.py:88-101 | an admitted hold leaves its month under the ceiling or empty, even when the month turns between the check and the write |
| Metering.TheCeilingHolds | src/cindral/budget.py:167-192 | with a clock that never runs back, over any holds, releases and attributions and across month resets, the counted minutes of the month stay below the ceiling or nothing is counted |
| Metering.MeteredLedger.ReportNextAdmitted | src/cindral/budget.py:88-101 | the report's own comparison says what a reservation at that instant would get, whatever estimate up to the assumed cost it makes, and no larger estimate is admitted when it says no |
| Metering.AHoldGivenBackLeavesNoTrace | src/cindral/metering.py:90-99 | a refused hold writes nothing and a hold given straight back leaves the ledger as it was found |
| Metering.ANumberIsReusedExactlyWhenItWasTheLast | src/cindral/metering.py:50-71 | after a release the next number lies above the released one if and only if a higher one is still held, and is that very number if and only if none is and the one just below is held or it was the first |
| Metering.ASecondReleaseFreesAnotherHoldExactlyWhen | src/cindral/metering.py:90-99 | for every ledger, a hold released, another's taken and the first released again frees the other's if and only if the number was reused; then the month counts nothing for it, and otherwise the second release does nothing |
| Metering.ASecondReleaseRemovesExactlyAReusedHold | src/cindral/metering.py:50-99 | with any holds, releases and attributions between two releases of a hold, the second removes a row if and only if the number was given out again meanwhile and not released since |
| Metering.AHigherHoldKeepsTheNumber | src/cindral/metering.py:50-71 | while a higher number stays held a released one is not given out again, whatever else happens |
| Metering.ReleasingTwiceMayFreeAnotherHold | src/cindral/budget.py:195-210 | so it does on a ledger that held nothing else, under every ceiling with room |
| Metering.MeteredLedger.ReserveMetered | src/cindral/budget.py:167-192 | the comparison and the insert under one lock are the reservation the ceiling is proved for, and a refused one writes nothing |
| MeteredMonths.SpentIsTheMonthsDispatches | src/cindral/budget.py:56-61 | the minutes spent are the hosted dispatches of the month at the price of each, where no row is from the future |
| MeteredMonths.TheCeilingAdmitsExactlyWhen | src/cindral/budget.py:88-101 | a dispatch is admitted exactly when the month is not full and has room for its estimate and for the assumed price |
| MeteredMonths.AReservationIsOneUnnamedDispatch | src/cindral/budget.py:167-192 | a reservation is held exactly then, as one new unnamed hosted row of the instant it was written |
| MeteredMonths.AnAttributionNamesItsRowAlone | src/cindral/metering.py:73-88 | an attribution names one row's repository, workflow and ref and changes nothing else |
| MeteredMonths.InstantsAreOrdered | src/cindral/metering.py:101-108 | instants are ordered by month and then by second |
| Routing.RoutingChargesOnlyTheHostedLane | src/cindral/policy.py:267-286 | a routing that fails or picks another lane leaves the ledger as it found it; one that picks the hosted lane under a ceiling holds exactly one row |
| Routing.LocalDecisionsHoldNothing | src/cindral/policy.py:353-374 | a local decision names a listed lane other than the device lane and an idle, healthy runner with the labels it runs on, and holds nothing |
| Routing.LocalFallbackIsComplete | src/cindral/policy.py:353-374 | no local lane is found if and only if none of the listed ones can be served |
| Routing.TheFirstNameIsChosen | src/cindral/policy.py:376-384 | of the eligible runners none has a name that sorts before the chosen one's |
| Routing.BillingOnlyFillsWhatWasUnstated | src/cindral/policy.py:249-265 | an explicit lane, a repository that is not private and a stated figure route alike whatever billing says |
| Routing.ASpentCeilingRoutesLocally | src/cindral/policy.py:267-310 | once the ceiling refuses, a route exists exactly when a local lane can be served, and the ledger is untouched |
| Routing.Choose | src/cindral/policy.py:220-286 | asking billing, taking the hold, choosing and giving it back unused is the routing those statements are about |
| RoutingRules.AnAutomaticRequestGoesHostedExactlyWhen | src/cindral/policy.py:288-326 | an automatic request the ceiling does not refuse goes to the hosted lane if and only if its repository is public, or the quota is available or allows paid minutes and nothing or enough is stated to be left, or is unknown and unknown means hosted, or is exhausted and overage is allowed, or is something else and enough is left; otherwise the local list serves it |
| RoutingRules.ANamedLaneAndASpentCeiling | src/cindral/policy.py:267-310 | a request the ceiling refuses is served by the local list, and otherwise one that names a lane gets it as that lane can be served |
| RoutingRules.BillingCountsExactlyWhereNothingIsStated | src/cindral/policy.py:220-265 | billing counts exactly for an automatic request for a private repository that states neither quota nor minutes, when it says more than unknown |
| RoutingRules.ANamedLaneIsServed | src/cindral/policy.py:328-351 | a named lane runs on its own labels, and for the device lane the listed device's, on the first-named runner that may take them, or is refused for the first reason that applies |
| RoutingRules.TheLocalListServes | src/cindral/policy.py:353-374 | the local list serves the first of its lanes, past the device lane, that could be served if named, or none |
| Deliveries.OutcomeFollowsTheRun | src/cindral/refusal.py:19-27 | whether or not a call started a run, an answer that can follow settles the delivery as accepted exactly when only a run explains it, as rejected exactly when only none does, and as uncertain exactly when either may be |
| Deliveries.StepKeeps | src/cindral/webhook_dispatch.py:195-372 | each step of a request, a replay or a restart keeps one claimant, one call and one hand-off, and a hand-off only where no run may exist |
| Deliveries.AtMostOnce | src/cindral/delivery_dispatch.py:19-69 | over any interleaving of requests, replays, crashes and restarts GitHub is called at most once per delivery, the device is handed it at most once, and a delivery that has a run is never rejected or handed over |
| Deliveries.SettledDeliveriesStaySettled | src/cindral/deliveries.py:157-205 | accepted, rejected and uncertain are final, and a delivery handed over never reaches GitHub |
| Deliveries.AnUnsentRefusalReachesADevice | src/cindral/webhook_dispatch.py:40-52 | a delivery refused before it was sent can reach a device without a call to GitHub |
| Deliveries.ASentRefusalReachesADevice | src/cindral/webhook_dispatch.py:195-372 | so can one GitHub refused for good, with one call and no run |
| Deliveries.AStartedRunIsAccepted | src/cindral/delivery_dispatch.py:19-69 | and one GitHub started a run for is accepted, with that run |
| Deliveries.ARestartSettlesWhatWasLeft | src/cindral/deliveries.py:199-205 | a restart forgets every process, makes an attempt nobody finished uncertain and changes nothing else |
| Deliveries.AProcessOnlyGoesOn | src/cindral/webhook_dispatch.py:195-372 | each process looks, sends, waits, is answered, returns and is done, and never goes back |
| Deliveries.CallsAndHandOffsAreCounted | src/cindral/webhook_dispatch.py:195-372 | over any run every call to GitHub and every hand-off is counted, and nothing else |
| DeliveryStore.Store.Register | src/cindral/deliveries.py:128-146 | only the first registration of a delivery writes a row, and a later one is given what that wrote |
| DeliveryStore.Store.Claim | src/cindral/deliveries.py:148-155 | the claim is won exactly from the ready state and is the machine's claim |
| DeliveryStore.Store.Finish | src/cindral/delivery_state.py:21-26 | a result is recorded only while the attempt owns the row and the store can be written, and is uncertain otherwise |
| DeliveryStore.Store.RejectReady | src/cindral/deliveries.py:190-197 | only a delivery nobody claimed can be refused without a call |
| DeliveryStore.Store.Recover | src/cindral/deliveries.py:199-205 | a restart makes exactly the unfinished attempts uncertain and counts them |
| DeliveryStore.Store.DispatchRecord | src/cindral/delivery_dispatch.py:19-69 | the row, the ledger and the answer of one dispatch in every case; the hold goes back exactly when the claim was lost or no run can exist, and a device may take over exactly when this dispatch recorded a definite refusal |
| DeliveryStore.Store.DispatchPush | src/cindral/webhook_dispatch.py:314-360 | from its registration on a push conflicts exactly with another payload's number, repeats exactly a settled delivery, releasing its hold twice over, and goes to a device exactly when this push's own dispatch was definitely refused and recorded |
| DeliveryStore.AReplayChargesExactlyWhatMayRun | src/cindral/delivery_spend.py:39-47 | a permitted replay waits exactly when the ceiling has no room; the ledger gains one row exactly when the replay is metered, was sent and may have a run, and is otherwise untouched |
| DeliveryStore.APassChargesExactlyWhatMayRun | src/cindral/webhook_dispatch.py:21-87 | a pass changes only its batch, gives a device only deliveries that end rejected, keeps every row of the ledger and adds exactly one for each delivery that is metered, is sent and may have a run |
| DeliveryStore.Store.ReplayOne | src/cindral/webhook_dispatch.py:40-87 | row, ledger and hand-off of one waiting delivery in every case, and that no other row is touched |
| ReplayEnds.AReplayEndsExactlyAs | src/cindral/webhook_dispatch.py:40-87 | a replay is rejected unsent when it is not permitted or its workflow file is gone, waits when the file cannot be looked up or the ceiling is full, and otherwise ends as its answer says or stays an attempt where that is not recorded; a device is given exactly a rejected one it may have |
| ReplayEnds.AChargedReplayIsNamedWhenItStarted | src/cindral/delivery_spend.py:39-74 | a charged replay adds one hosted row of that instant, named after the delivery exactly when a run started |
| DeliveryStore.Store.Pending | src/cindral/deliveries.py:184-188 | the deliveries waiting longest, oldest first, all of them when they are fewer than the limit |
| DeliveryStore.Store.RecoverReady | src/cindral/webhook_dispatch.py:21-87 | a pass replays at most thirty deliveries, those waiting longest, each against the ledger the one before left |
| ConditionCompletion.DecidedSurvivesCompletion | src/cindral/jobcondition.py:51-68 | a decided condition has the same answer in every context that agrees on the known paths, and fewer paths stay unread |
| ConditionCompletion.RefusalDoesNotDependOnTheContext | src/cindral/jobcondition.py:51-68 | whether a condition is refused, and why, is the same for every event |
| ConditionCompletion.UndecidedNamesWhatItLacks | src/cindral/jobcondition.py:118-143 | an answer is undecided if and only if it names a path the run does not carry |
| ConditionCompletion.SupplyingWhatIsUnreadDecides | src/cindral/jobcondition.py:118-143 | supplying every named path decides the condition, whatever the values |
| ConditionComparisons.EveryOperandStandsForOneValue | src/cindral/jobcondition.py:302-315 | every operand stands for exactly one of a text it is or the run carries, a flag it spells in any case, a number, or nothing known |
| ConditionComparisons.AnOperandAloneIsAnswered | src/cindral/jobcondition.py:167-183 | an operand alone holds exactly when it is a text that is not empty, a number that is not zero or a true flag, and an unknown path is undecided and named |
| ConditionComparisons.AComparisonIsAnswered | src/cindral/jobcondition.py:184-241 | `==` and `!=` answer whether two operands are equal: texts but for case, flags, numbers, and unlike kinds as the one number both are read as, never when one is not read as a number; an unknown path leaves both undecided and is named |
| ConditionComparisons.AGroupComparesAsItsVerdict | src/cindral/jobcondition.py:156-164 | what holds an operator is compared as the flag of its verdict, and undecided with it |
| ConditionWords.WordsReadBackExactlyWhenClear | src/cindral/jobcondition.py:279-301 | words come back from their own text if and only if no operand in parentheses has a parenthesis beside it and no group holds just an operand |
| ConditionPrinting.PrintedTreesReadBack | src/cindral/jobcondition.py:94-190 | the text of any tree that leaves no parenthesis beside an operand in parentheses, redundant groups included, is consumed to the end with the tree's own three-valued meaning when it nests at most 64 deep, and refused as too deep when it nests deeper |
| ConditionGrammar.GroupsOfOperatorsReadBack | src/cindral/jobcondition.py:262-301 | in particular so is every tree whose groups each hold an operator |
| ConditionGrammar.ATextIsReadExactlyWhen | src/cindral/jobcondition.py:51-68 | any text is read if and only if its words are those of some tree that nests at most 64 deep, and it is answered as any tree with those words |
| ConditionGrammar.AGroupMayFallApart | src/cindral/jobcondition.py:279-301 | a group of two alternatives, each an operand in parentheses, falls apart before a conjunction: it is read as the first, or the second and what follows, for any three operands, and so holds with the first where what follows does not |
| ConditionGuards.AWrappedOperandTakesEveryCloser | src/cindral/jobcondition.py:279-301 | a parenthesised operand swallows all the closing parentheses behind it, however many were opened |
| ConditionGuards.WrappedOperandsReadAsWrittenOnlyAlone | src/cindral/jobcondition.py:279-301 | such an operand leaves what follows its own parentheses if and only if no further closing one stands there |
| ConditionGuards.AGroupedComparisonOfAGroupIsRefused | src/cindral/jobcondition.py:167-190 | a comparison of a parenthesised operand is read, and refused once it is itself in parentheses |
| ConditionGuards.ChainWords | src/cindral/discovery.py:309-319 | any number of guards joined by nested calls have the words of each guard in its place, less the parentheses its first and last operand take |
| ConditionChains.AChainIsReadExactlyWhen | src/cindral/discovery.py:223-240 | two or more guards of any text, each a tree's, joined by nested calls are read if and only if the parentheses left around them are balanced and the descent has room for each in its place; then they are read as the tree those make |
| ConditionMeaning.AChainMeansAllItsGuards | src/cindral/discovery.py:309-319 | where a chain is read and no guard that joins with or takes a parenthesis, it is decided as all of its guards, naming what all of them lack |
| ConditionMeaning.AJoinedGuardMeansBoth | src/cindral/discovery.py:309-319 | two guards are read exactly when each takes parentheses on both sides or on neither, or only the first at its end and the second at its start, within the depth; they mean both unless one that joins with or takes one |
| ConditionMeaning.ALooseCallerRunsIntoTheCalled | src/cindral/discovery.py:309-319 | a caller's alternatives that begin and end with an operand in parentheses decide on their own: only the last of them is joined to the called job's guard |
| ConditionMeaning.OrdinaryChainsAreReadExactlyWhen | src/cindral/discovery.py:223-240 | guards that are one operand or take no parenthesis are read if and only if those below the outermost are all operands or none is, within the depth; then they mean all of them |
| LooseGuards.JoiningKeepsTheMeaningExactlyWhen | src/cindral/discovery.py:309-319 | for the shapes of any chain that is read, every readable chain of guards of those shapes is decided as all of its guards if and only if no guard that joins with or takes a parenthesis |
| ConditionReader.Reader.ReadCondition | src/cindral/jobcondition.py:51-68 | the descent with loops and one shared set of unread paths answers as the recursive reading does |
| ConditionReader.Reader.ReadDisjunction | src/cindral/jobcondition.py:94-105 | a disjunction leaves the same value, rest and unread paths as the recursive reading, whatever was collected before |
| ConditionReader.Reader.ReadSide | src/cindral/jobcondition.py:244-315 | so does an operand, group or negation depth included |
| Discovery.EveryInlinedJobCarriesItsChain | src/cindral/discovery.py:174-241 | every job with steps in an expansion is the end of a chain of calls, stands under the chain's path, and carries every guard of that chain joined in order |
| Discovery.ChainsKeepTheirJobsExactlyWhen | src/cindral/discovery.py:189-241 | where a workflow expands, every chain's job stands in the expansion if and only if no two chains with one path lead to different steps or joined guards, and each path has a chain that no later job that is not a mapping takes it from |
| Discovery.MappingsTakeNoPath | src/cindral/discovery.py:189-193 | where all jobs are mappings the second half of that condition always holds |
| Discovery.EveryChainIsInlined | src/cindral/discovery.py:174-241 | ids without a slash ensure it, non-mappings among the jobs or not |
| Discovery.ALaterJobTakesThePlace | src/cindral/discovery.py:189-193 | with a slash it need not: a later job named as a chain's path replaces that chain's job, for every workflow and chain |
| Discovery.CallsNeverReturn | src/cindral/discovery.py:205-226 | where an expansion succeeds no chain of calls is longer than the files not yet being read, so every cycle is refused |
| CallInputs.FillingGoesPieceByPiece | src/cindral/discovery.py:244-286 | a guard is filled piece by piece: tokens stay, inputs become their values, and the first input not passed refuses it |
| CallInputs.AFilledGuardReadsNoInput | src/cindral/discovery.py:244-286 | a guard is filled exactly when every input it reads is passed, and then reads none |
| CallInputs.ACallPassesItsInputs | src/cindral/discovery.py:244-286 | a workflow that is read has its jobs in order with their guards filled by what the call gives over its own defaults |
| CallInputs.ACallIsReadExactlyWhen | src/cindral/discovery.py:194-216 | a call is followed exactly when its file is in the repository, is not being read and declares only what is mapped, and is refused for the first of these that fails |
| CallInputs.ACallersGuardIsFilled | src/cindral/discovery.py:216-240 | the caller's guard is joined filled with the inputs passed to its own workflow, where there are any |
| Discovery.EveryGuardIsCarried | src/cindral/discovery.py:309-319 | a joined guard holds each guard of its chain whole, and is missing only when all are |
| Discovery.AnInlinedJobMeansAllItsGuards | src/cindral/discovery.py:309-319 | the guards inlining joins through any number of calls are that chain, so the job is decided exactly under that condition, and as all of its guards unless one that joins with or takes a parenthesis |
| Discovery.ExpandCalls | src/cindral/discovery.py:174-241 | the recursive loop that fills a dictionary gives the expansion those statements are about, refusing for the first refused job |
| StepLog.SegmentsCoverTheLog | src/cindral/steps.py:149-166 | for any log the text before the first step and the steps in order are the whole log, so bodies are disjoint and ordered |
| StepLog.AnOutputIsTheTextBehindItsMarker | src/cindral/steps.py:67-96 | a marker, its step's output and the text from what comes next on are the text of the log |
| StepLog.StepsAreConsecutive | src/cindral/steps.py:149-166 | for any log the steps are numbered one after another, each but the last is followed, and no body hides the next step's marker |
| StepLog.ARunReadsBackAsItsSteps | src/cindral/steps.py:67-96 | the log of a run whose output carries none of its markers reads back as the announced steps in order with their own output, all complete but the one it stopped in |
| StepLog.Boundaries | src/cindral/steps.py:149-166 | one pass over the markers keeps exactly those at which the steps of the log start |
| StepLog.ParseSteps | src/cindral/steps.py:67-96 | reading each step between its marker and the next gives the log's steps, cut to the budget |
| StepLog.UnfinishedStep | src/cindral/steps.py:183-193 | the step found is the last incomplete one, and none is found only when all are complete |
| StepBounds.TrimmingConserves | src/cindral/steps.py:99-146 | the trimmed set is bounded, keeps a leading part and the run's last step, its length and its last count add up to all steps, and a step left out for size would not have fit |
| StepBounds.WithinBudget | src/cindral/steps.py:99-146 | the counting and filling loop gives that set |
| StepBounds.TrimLeavesABoundedSetAlone | src/cindral/steps.py:99-146 | a set within the bounds is carried as it is |
| StepBounds.AShortNameIsMarked | src/cindral/steps.py:111-116 | a name is cut to 500 characters and marked exactly when it is longer |
| StepBounds.TheLastRecordIsCutExactlyWhen | src/cindral/steps.py:117-146 | the last record's output is cut to its first 16384 characters and marked exactly when the set was too large and it is longer |
| StepReports.EncodedIsBounded | src/cindral/steps.py:293-347 | whatever a device sends, what is stored has at most 64 records within 64 KiB, each within its own bounds |
| StepReports.AnEntryIsStoredAs | src/cindral/steps.py:267-347 | what makes an entry a record, and the record it is stored as, field by field |
| StepReports.AReportIsStoredFromItsStart | src/cindral/steps.py:293-347 | what is stored is a leading part of the records among the first 64 entries, all of them or as many as fit, the last then counting every one described |
| StepReports.EncodingLeavesABoundedSetAlone | src/cindral/steps.py:293-347 | validating a bounded set changes nothing |
| StepReports.EncodingTwiceIsEncodingOnce | src/cindral/jobapi.py:328 | for any report, validating what was validated changes nothing, as its two calls need |
| StepReports.EncodingConserves | src/cindral/steps.py:275-347 | what is stored describes as many steps as the report if and only if one of the first 64 entries is a valid record or none of all entries is; a stored set holds every valid record sent, or its length and last count add up to all described |
| StepReports.ALeadOfNoiseLosesEveryRecord | src/cindral/steps.py:293-347 | behind 64 entries that are no records, any records are lost and nothing is stored that counts them |
| StepReports.ATrimmedReportIsStoredAsItIs | src/cindral/steps.py:293-347 | a set trimmed by the device is stored as it was trimmed and accounts for every step of the run |
| StepReports.AStoredRunEndsWhereItStopped | src/cindral/steps.py:224-247 | from script to store: the stored records end with the step the run ended in, complete exactly when it did not stop there, behind the run's first steps, all complete, with the missing ones counted |
| StepReports.EncodeSteps | src/cindral/steps.py:293-347 | the validating loop gives the set those statements are about, and nothing for what is not a list |
| StepReports.ReportTotal | src/cindral/steps.py:275-290 | the count of a report is its valid records and the last count stated in it |
| CacheTotals.TotalCountsEachDigestOnce | src/cindral/cache.py:337-342 | the running total is the sum over distinct digests of the largest size recorded for each |
| CacheTotals.TotalIsMonotone | src/cindral/cache.py:337-342 | keeping fewer rows never costs more, although giving up a row with a shared digest may free nothing |
| CacheTotals.EvictionKeepsWhatFits | src/cindral/cache.py:329-355 | evicting one oldest row at a time keeps, in order, exactly the rows for which the quota has room beside everything in scope used after them, and every row out of scope |
| CacheTotals.EvictionFits | src/cindral/cache.py:329-355 | what is left of a scope is within its quota, for any table and quota |
| CacheTotals.EvictionIsLeastRecentlyUsed | src/cindral/cache.py:329-355 | every row given up was used before every row kept in the same scope, or at the same instant and written before it, or named before it |
| CacheGuarantees.EveryRunKeepsTheStoreSound | src/cindral/cache.py:126-243 | after any lookups and uploads the blobs are exactly the named digests, each under its own digest; the store and every repository are within quota; and hits and misses add up to the lookups |
| CacheGuarantees.EverythingStoredWasWritten | src/cindral/cache.py:283-295 | over any run the entries never outnumber the writes counted, and the stored bytes the metrics report never exceed the bytes counted as written |
| CacheGuarantees.UploadsAgree | src/cindral/cache.py:179-243 | an upload that is accepted, new or not, leaves index and blobs agreeing and every quota held, other repositories' included |
| CacheGuarantees.TheQuotaBoundsTheDisk | src/cindral/cache.py:323-326 | with a collision-free hash the total held against the quota is what the blobs take up on disk |
| CacheGuarantees.AnUploadReadsBack | src/cindral/cache.py:245-276 | straight after an upload its entry reads back the very bytes if new and the stored ones if not; only a new entry can be missing, exactly when it is no longer in the index |
| CacheGuarantees.ALookupAnswersWhatWasAsked | src/cindral/cache.py:126-177 | among the rows used within the time to live, in their order, a lookup answers the exact key, else the one used last of the first matching prefix, else nothing; its blob is there, those rows are left, and only the answer's time of use changes |
| CacheLifetimes.AnEntryIsFoundExactlyWhileItLives | src/cindral/cache.py:126-177 | an entry is found by its own key exactly until the time to live has passed since its last use, and a later lookup takes it away |
| CacheLifetimes.AnUploadIsFoundForItsTime | src/cindral/cache.py:179-243 | an entry that is there after its upload is found by its key at every time up to the time to live after it, and at none later |
| CacheLifetimes.AnEntryOpensExactlyWhileItLives | src/cindral/cache.py:245-276 | its bytes can be read exactly while it is in the index under that key and digest and was used within the time to live |
| CacheLifetimes.AnUploadIsRefusedExactlyWhen | src/cindral/cache.py:179-243 | an upload is taken exactly when its length is within the blob limit and the repository's quota and no more than was sent, and makes an entry exactly when no live one has its key |
| CacheLifetimes.EachStepIsCountedOnce | src/cindral/cache.py:283-295 | each lookup counts one hit or one miss, each new entry one write and its bytes, and nothing else is counted |
| CacheLifetimes.LiveBytesAreNeverRewritten | src/cindral/cache.py:179-243 | the bytes a live entry names are never rewritten while they are kept |
| CacheLifetimes.ARowWithoutItsBytesIsAMiss | src/cindral/cache.py:126-177 | a lookup that finds a row whose bytes are gone is a miss and takes the row away |
| CacheGuarantees.TheNewestStaysWhenItFits | src/cindral/cache.py:329-355 | a row that every other is older than survives a pass if and only if it fits the quota alone |
| CacheGuarantees.ANewEntryStaysExactlyWhenThereIsRoom | src/cindral/cache.py:323-326 | a new entry is still there when its upload returns if and only if each quota has room for it beside everything in scope not older, the store's counted after its repository's pass |
| CacheGuarantees.ANewEntryStaysExactlyWhenItFitsTheStore | src/cindral/cache.py:323-326 | when every other entry was used earlier, or at the same instant and comes before it in the order of eviction, that is if and only if the whole store has room for it |
| CacheStore.Store.Lookup | src/cindral/cache.py:126-177 | the lookup in place, with its sweep, counters and touch, is the lookup those statements are about |
| CacheStore.Store.Put | src/cindral/cache.py:179-243 | so is the upload; a refused one changes nothing |
| CacheStore.Store.EvictToQuota | src/cindral/cache.py:329-355 | the loop that deletes one row at a time ends with the rows eviction keeps |
| CacheStore.Store.CollectBlobs | src/cindral/cache.py:357-369 | exactly the blobs the index does not name are deleted |
| CacheStore.Store.Open | src/cindral/cache.py:245-276 | a blob is opened only for an unexpired entry of that very key and digest |

## Left out

- A broker crash between taking an owed verdict and posting it: the verdict is only in memory then, so the custody statements are for runs without one.
- The queued status `_enqueue_direct` posts outside the lock; order is stated for reports and drains.
- QueueGuarantees.NoOlderVerdictLandsLater: takes a request that landed to have landed before its event ends; `CommitHistory` says exactly when the order survives a later landing.
- A broker without GitHub configured, which posts nothing and takes every verdict as told.
- `_report` computes a loss from the row it read before the lock; the model computes it from the row it settles.
- What redaction removes and what a log says of where a run stopped are functions; step records enter a verdict as the sentence of the unfinished one, and their outputs do not.
- JobStore.Store.DrainOwed: drains every job in any order, where the code takes rows by age; each job is decided by its own reply, so the order does not show.
- A check run's requests to GitHub, the two checks concurrency may leave, and its summary, text and annotations; its conclusion and title are modelled.
- Job ids are numbers: a fixed-width hexadecimal id sorts as the number it spells.
- Times are real numbers, and their rounding is not modelled.
- Reservations.Capacity.DispatchDecision: the lane, its labels and its candidate are inputs there, and `Dispatching.DispatchDecision` makes them; runner lists are fixed while reservations are compared, and the capacity snapshot and the reason text are left out.
- JSON schemas, label matching against GitHub and the policy file's own validation.
- Pushes handed to a device before a ledger row exists; at-most-once starts at the row.
- DeliveryStore.Store.DispatchPush: starts at the registration; the checks before it and the runner reservation it also releases are not part of it, and other dispatches' writes between its own are left out of what it returns.
- That every metered row stands for a dispatch: `/v1/route` keeps the hold of a preview, and some paths release a hold twice. The ceiling is stated for what is counted.
- Condition text: tokenizing, unquoting, the text of numbers and case folding come from the platform, and the context a run carries is any map.
- Guards that are no tree's text, and are refused alone, are not in the chain lemmas; that a chain of them is read or not follows from its own words.
- The `with:` values and defaults of a reusable call are taken in the form a guard reads; their conversion by declared type, `env`, and substitution elsewhere in a job are not modelled, nor is text inside a value read again for inputs. The resolved place of a called file is given.
- The order of an expanded workflow's jobs, which is the dictionary's.
- A step log is a sequence of lines with what each says as a marker given; a step whose command spans lines is not rendered.
- A cache scope's allowed characters, reading an upload in blocks, temporary files, and store or disk failures; the hash is any function, and collision-freedom is asked for only where bytes or disk use are stated.
- Rows that tie in an eviction on both times and key, which SQL leaves open, go in order of insertion.
- The artifact store, whose eviction is a simpler case of the cache's, and whose rows may outlive their files.
- HTTP, tokens, GitHub clients, SQLite itself, threads and timers, Docker and git, toolchains, the command line, metrics text, redaction, trigger patterns and the web panel.
