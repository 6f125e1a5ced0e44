# lite-server: a verified model of its scheduler

lite-server dispatches inference requests to a fleet of worker processes. This project models, in Dafny,
the parts of it whose correctness is spread over many calls and many tasks, and proves what they keep over
every run and every interleaving:

- the shared **outlier state**: a circuit breaker per worker with exponential backoff, an ejection cap, kill
  escalation and the fleet-wide recycle ticket (`Outlier`, `OutlierRuns`, `OutlierHistory`), also between the single
  operations of a claim and of an ejection (`TicketRaces`, `EjectionRaces`);
- the **priority channel** between submitters and the collector: order, capacity, wake-up and close
  (`PriorityChannel`, `WakeUp`), the gates of **submission** (`Submit`) and **graceful drain** (`Drain`);
- the **batch collector** (`Collector`);
- **worker selection** (`Pickers`, `Rendezvous`), the **send and retry** path (`Replies`, `SendRetry`) and the in-flight counters
  it keeps (`Inflight`);
- **pacing and limits**: recycle budgets (`Budget`, `BudgetRaces`), stream permits and global admission
  (`StreamPermits`, `Admission`);
- the **size-rotating log appender** (`LogRotation`), the **client address** walk (`ClientIp`) and the
  **device plan** (`DevicePlan`).

How it is built. Code that changes shared objects is a class whose methods are proved equal to a specification
function of the old state (`OutlierState` against `Apply`, `Channel` against `Step`, `WorkerBudgets` against
`ChargeSlot`, `SizeRotatingAppender` against `Rotated` and `Written`); loops are methods with invariants. Protocols
whose interest lies between two atomic operations are state machines over single atomic steps, and a run is any
sequence of steps. Clocks, random draws, hashes, address parsing and worker replies are inputs, so every theorem
holds for all of them. `dafny verify dfyconfig.toml` checks the whole project.

Nine properties one would expect are false of the code as written. Each has a concrete run that breaks it and a
statement of when it holds:

- `recv` returning `None` does not imply that everything accepted was delivered: a push that lands between the
  empty pop and the load of the sender count is lost (`WakeUp.NoneLosesExactlyLatePushes`, `WakeUp.LatePushIsLost`).
- A `reset` or `release_recycle` that overlaps a claim on the same slot returns a ticket that was never taken. With
  nothing else out the counter wraps and every claim is refused until another overlap; with tickets out the cap can be passed
  (`TicketRaces.StepKeepsTickets`, `TicketRaces.OverlapShiftsWindow`, `TicketRaces.OverlapWrapsCounter`,
  `TicketRaces.OverlapPassesCap`).
- A successful single response to a batch of several requests leaves the other callers unanswered
  (`Replies.ExactlyOneAnswer`, `Replies.LoneReplyStrands`).
- `wait_idle` may return while a submitter that looked the queue up earlier is still going to be accepted
  (`Drain.IdleIsFinal`, `Drain.DrainMissesSubmitter`).
- With no stream limit the permit counter is decremented without having been incremented
  (`StreamPermits.UnlimitedReleaseWraps`).
- A won recycle claim need not have used up the budget: a completion that saw the crossing before another completion
  recycled the slot can recycle the fresh worker at once (`BudgetRaces.ClaimUsesAdded`,
  `BudgetRaces.StaleClaimUsesNothing`).
- A kill signal can go to a slot that is being recycled: the guard is read before the send, which waits for room in the
  channel (`OutlierHistory.SignalMeetsRecycle`, `OutlierHistory.StaleSignal`).
- A served batch does not always close the circuit of a slot whose backoff is up: a worker taken without being asked
  about, such as the only worker of a version, stays ejected (`SendRetry.AttemptDecidesCircuit`,
  `SendRetry.LoneWorkerStaysOpen`).
- Ejections that run at the same time can pass the ejection cap, up to the whole fleet (`EjectionRaces.CapUnderRaces`,
  `EjectionRaces.AllEjectTogether`).

## Model

| member | source | states |
|---|---|---|
| Outlier.BackoffGrows | src/inference_queue.rs:280-287 | every backoff lies between the base and the maximum, and a longer series of openings never backs off less |
| Outlier.BackoffDoubles | src/inference_queue.rs:280-287 | the backoff from the configuration alone: the base after the first opening, doubled at every further one up to the twenty-first, capped by the larger of base and maximum |
| Common.PercentCapIsLargest | src/inference_queue.rs:600-600 | the cap is the largest number of workers within the percentage, or one when that would be none |
| Outlier.ApplyFrame | src/inference_queue.rs:290-645 | a call touches no slot but its own, and nothing but a claim starts a recycle |
| Outlier.ApplyKeepsTickets | src/inference_queue.rs:340-397 | if the ticket count equals the recycling slots and is within the cap, it still does after any call |
| Outlier.OutlierState.constructor | src/inference_queue.rs:257-278 | a new fleet has every slot closed, alive and not recycling, and no ticket taken |
| Outlier.OutlierState.RecordSuccess | src/inference_queue.rs:292-304 | one application of the specification: errors and kills cleared, a half-open circuit closed and its series forgotten |
| Outlier.OutlierState.RecordError | src/inference_queue.rs:542-575 | one application of the specification, with the result: half-open reopens at once, closed counts towards the threshold, open only counts |
| Outlier.OutlierState.MaybeEject | src/inference_queue.rs:579-615 | ejects exactly when the slot is not ejected and fewer other slots are than the cap allows, and changes nothing else |
| Outlier.OutlierState.IsEjected | src/inference_queue.rs:622-645 | one application of the specification: an open slot turns half-open once its backoff has passed |
| Outlier.OutlierState.ForceEject | src/inference_queue.rs:485-503 | one application of the specification: opens a closed circuit whatever the cap, and reports whether it did |
| Outlier.OutlierState.Reset | src/inference_queue.rs:340-354 | one application of the specification: a clean slot with its ticket returned and its kill count kept |
| Outlier.OutlierState.ClaimRecycle | src/inference_queue.rs:367-397 | one application of the specification: won exactly by a live, closed, idle slot with a ticket free; a refused claim changes nothing |
| Outlier.OutlierState.ReleaseRecycle | src/inference_queue.rs:453-460 | one application of the specification: the ticket goes back and the slot is force-ejected |
| Outlier.OutlierState.MarkDead | src/inference_queue.rs:467-473 | one application of the specification: liveness is lost and the circuit left alone |
| Outlier.OutlierState.RecordKill | src/inference_queue.rs:324-328 | one application of the specification: one more kill counted |
| Outlier.OutlierState.ResetErrorCount | src/inference_queue.rs:332-336 | one application of the specification: errors cleared, circuit left alone |
| Outlier.OutlierState.EscalateToKill | src/inference_queue.rs:2746-2794 | signals exactly when the errors reach a non-zero threshold, the slot is not recycling, a channel exists and fewer than three kills are counted; then counts the kill and clears the errors |
| OutlierRuns.CallKeepsCircuit | src/inference_queue.rs:290-645 | every call keeps what the openings observed from outside say about the slot: their number is the series, their spacing respects the backoff |
| OutlierRuns.CallKeepsKills | src/inference_queue.rs:290-354 | every call keeps the kill and error counts in step with the signals and errors observed from outside |
| OutlierRuns.CircuitBreaker | src/inference_queue.rs:282-304 | in every run a slot is closed exactly when its series is 0, the series is the number of openings since it last closed, and opening k+1 of an episode comes no earlier than the first plus the sum of the first k doubling waits |
| OutlierRuns.EjectionCap | src/inference_queue.rs:579-615 | in every run of calls the slots ejected for errors, half-open included, stay within max(1, n*percent/100), and openings equal true results |
| OutlierHistory.ErrorsFollowTheLog | src/inference_queue.rs:542-615 | from the log of calls and answers alone: an error opens the circuit exactly when a probe is out undecided, or when no opening is in force, this error completes a full threshold in a row and fewer other slots are in ejection than the cap |
| OutlierHistory.ProbesFollowTheLog | src/inference_queue.rs:617-645 | from the log alone: a probe is refused exactly while the last opening has let none through and the doubling wait of the number of openings since the circuit was last closed still lasts |
| OutlierHistory.ForcingFollowsTheLog | src/inference_queue.rs:453-503 | from the log alone: a forced ejection, alone or after a failed recycle, opens the circuit exactly when no opening is in force |
| OutlierHistory.ClaimsFollowTheLog | src/inference_queue.rs:367-397 | from the log alone: a claim is won exactly by a slot whose process has not exited unreplaced, with no opening in force and no unended claim, while fewer slots than the cap have one |
| OutlierHistory.ChecksFollowTheLog | src/inference_queue.rs:2746-2774 | from the log alone: an escalation goes ahead exactly after kill_threshold errors in a row, with no unended claim and fewer than three kills since the last success |
| OutlierHistory.SignalMeetsRecycle | src/inference_queue.rs:2754-2788 | in every run a signal goes to a recycling slot exactly when a recycle of it was claimed, and not ended, between the check of that escalation and its send |
| OutlierHistory.StaleSignal | src/worker/process.rs:658-677 | such a run: an error, the check, a won claim, the send |
| OutlierRuns.ErrorReportsOpening | src/inference_queue.rs:535-575 | record_error returns true exactly when it opens a circuit that was not open |
| OutlierRuns.RecycleTickets | src/inference_queue.rs:340-397 | in every run of calls the ticket count is the number of recycling slots, within the cap, and a fleet of two or more with a percentage below 100 always keeps a slot out of recycling |
| OutlierRuns.KillEscalation | src/inference_queue.rs:2733-2794 | in every run, with other calls between check, send, count and clear of an escalation: at most three signals between recorded successes even across resets, and at least kill_threshold errors recorded before each |
| TicketRaces.StepKeepsTickets | src/inference_queue.rs:376-397 | at the granularity of single atomic operations a step keeps the ticket accounting exactly when it is not a clear overlapping a claim on its own slot |
| TicketRaces.InterleavedClaims | src/inference_queue.rs:340-397 | in every overlap-free interleaving tickets are the claims won and not cleared since plus the returns under way, never above the cap; a slot with no claim running is flagged exactly when its claim was won and not cleared since; some slot of a larger fleet holds no won claim |
| TicketRaces.ClaimOutcome | src/inference_queue.rs:380-394 | an undisturbed claim wins exactly when fewer tickets than the cap are held or on their way back; refused, it leaves no flag or ticket behind |
| TicketRaces.OverlapShiftsWindow | src/inference_queue.rs:340-397 | in every interleaving, overlaps included, a claim that comes to its decision wins exactly when the won claims and returns under way number at least the overlaps so far and less than that plus the cap |
| TicketRaces.OverlapWrapsCounter | src/inference_queue.rs:340-397 | in a fresh fleet of any size, after one overlap whose ticket is returned before the claim is decided and through every continuation without another overlap, the counter stays wrapped, no claim is ever won and every claim that comes to its decision is refused |
| TicketRaces.OverlapPassesCap | src/inference_queue.rs:340-397 | a run in which, with a ticket out, one overlap lets two claims be won under a cap of one |
| EjectionRaces.CapUnderRaces | src/inference_queue.rs:579-615 | in every interleaving of scans that skip taken locks, the slots ejected for errors exceed the cap by at most the ejections from whose scan a slot ejected by then had escaped; without one the cap holds |
| EjectionRaces.AllEjectTogether | src/inference_queue.rs:586-607 | for every cap and fleet size a run that ejects all slots, reaching the bound exactly |
| EjectionRaces.UndisturbedEjection | src/inference_queue.rs:579-615 | an ejection no other call interferes with ejects exactly when fewer other slots than the cap are ejected, forced ones included, and changes nothing else |
| PriorityChannel.Channel.constructor | src/inference_queue.rs:738-752 | a new channel is empty with capacity max(1, cap) |
| PriorityChannel.Channel.TrySend | src/inference_queue.rs:757-771 | one submit step of a run: refused exactly at capacity, else pushed with the next number and the clamped priority |
| PriorityChannel.Channel.TryRecv | src/inference_queue.rs:795-814 | one receive step of a run: nothing exactly when empty, else the first entry of the order |
| PriorityChannel.Pop | src/inference_queue.rs:697-704 | the popped entry comes before every other: higher priority, then older |
| PriorityChannel.Conservation | src/inference_queue.rs:757-814 | in every run accepted entries are the delivered ones plus the pending ones, as multisets, with pending never above the capacity |
| PriorityChannel.FifoWithinPriority | src/inference_queue.rs:695-704 | in every run entries of equal priority are delivered in the order they were accepted |
| PriorityChannel.SubmissionBecomes | src/inference_queue.rs:824-839 | in every run an accepted submission carries priority 0 without a header or with one of 0 or more, and exactly the negative value asked for otherwise |
| PriorityChannel.DefaultNotOvertakenByLater | src/inference_queue.rs:824-839 | in every run a submission without a header, or with one of 0 or more, is delivered before every submission accepted after it, whatever that one's header asks |
| PriorityChannel.BoundedOvertaking | src/inference_queue.rs:824-839 | in every run at most capacity-1 deliveries pass such a submission between its acceptance and its own delivery |
| PriorityChannel.LoweredYields | src/inference_queue.rs:824-839 | in every run a submission that lowers itself is not delivered while one that asks for more is pending |
| WakeUp.StepKeepsSenders | src/inference_queue.rs:774-790 | the sender count is the number of live handles after every step |
| WakeUp.NoLostWakeUp | src/inference_queue.rs:757-814 | in every interleaving a parked consumer with an item pending or no sender left is owed a notify, and any owed notify wakes it |
| WakeUp.UninterruptedNoneIsDrained | src/inference_queue.rs:793-814 | None with nothing between the empty pop and the load means closed and drained |
| WakeUp.NoneLosesExactlyLatePushes | src/inference_queue.rs:800-811 | in general None leaves behind exactly the items pushed between the pop and the load |
| WakeUp.ClosedIsFinal | src/inference_queue.rs:774-814 | whatever follows the close, the channel stays closed with no sender, and nothing is delivered or added |
| WakeUp.LatePushIsLost | src/inference_queue.rs:800-811 | a run in which the last sender's accepted item is never delivered |
| Submit.VersionQueue.AllWorkersDead | src/inference_queue.rs:528-533 | true exactly when there are workers and all are dead |
| Submit.BadPinMeans | src/inference_queue.rs:1191-1206 | a pin is bad exactly when out of range or naming a slot that is dead, recycling, or ejected with its doubling wait still to run |
| Submit.VersionQueue.CheckPin | src/inference_queue.rs:1191-1206 | rejects exactly a pin out of range or naming an ejected, dead or recycling worker, and leaves what selections see unchanged |
| Submit.VersionQueue.TrySubmit | src/inference_queue.rs:1179-1238 | accepts exactly when no gate rejects and the channel has room; an unknown queue is reported before a bad pin and a bad pin before a dead fleet; only an accepted request is counted and pushed |
| Drain.DrainAccounting | src/inference_queue.rs:104-115 | in every interleaving the counter is the number of requests whose guard is live, the queue-full path included; when it reads zero every request accepted before the drain began is done |
| Drain.IdleIsFinal | src/inference_queue.rs:960-967 | an observed zero is final exactly when no submitter stands between its lookup and its count |
| Drain.UnseenIsQueued | src/inference_queue.rs:1186-1230 | such a submitter is queued after the drain was reported complete |
| Drain.DrainMissesSubmitter | src/inference_queue.rs:960-967 | a run in which the drain reads zero with a submitter past its lookup, which is then queued and told Ok |
| Collector.AdaptiveTimeoutShrinks | src/inference_queue.rs:2438-2471 | the adaptive wait lies between the minimum and the base, and neither a fuller batch nor a deeper queue lengthens it |
| Collector.AdaptiveTimeoutIs | src/inference_queue.rs:2438-2471 | the adaptive wait by its value: the base less 99 per cent of it in proportion to the fill of the batch or of the queue, whichever leaves less, raised to the minimum; zero for a full batch |
| Collector.TakeItemKeepsOrder | src/inference_queue.rs:2543-2588 | taking an item adds it at the end of everything kept so far |
| Collector.TakeItemKeeps | src/inference_queue.rs:2543-2588 | taking an item keeps batches small, unmixed and dispatched for a reason, and the timer armed exactly when items wait, for exactly the wait of a batch of one at the queue depth then seen |
| Collector.FlushKeeps | src/inference_queue.rs:2553-2604 | a boundary or timer flush is a good dispatch and leaves buffer and timer empty |
| Collector.OnItem | src/inference_queue.rs:2530-2590 | the receive branch: an item that waited longer than the queue timeout is rejected when rejecting is on, else one without a waiter dropped, any other kept at the end of the order |
| Collector.OnPoll | src/inference_queue.rs:2525-2606 | one poll: the item's fate, the order of the kept items, a due timer served, and exit exactly on a closed channel with nothing buffered |
| Collector.BatchCollector | src/inference_queue.rs:2474-2625 | for every sequence of polls: dispatched batches and the buffer are the surviving items in order, rejected and dropped are the rest, batches are within the limit and never mix warmup with live items, each for its cause; at the exit nothing is left to drain |
| Pickers.ProbingKeepsSnapshot | src/inference_queue.rs:622-645 | probing a slot answers as the snapshot says and leaves the snapshot of all slots unchanged |
| Pickers.AskedAgain | src/inference_queue.rs:622-645 | probes in any order and number add up to one probe of each slot asked, and never change what a later selection sees |
| Pickers.SafeMeans | src/inference_queue.rs:1369-1419 | a safe pick is not dead if any worker lives, not excluded if any live worker is not, and alive, not ejected, not recycling and not excluded if any worker is all of that |
| Pickers.PickLeastLoaded | src/inference_queue.rs:1370-1419 | the first least-loaded worker of the best non-empty tier: active, then ejected or recycling, then already failed; 0 when all are dead; exactly the live workers that have not failed are probed, a lone worker never |
| Pickers.AffinityOverloaded | src/inference_queue.rs:1538-1574 | true exactly when the worker exceeds some usable alternative by the absolute threshold, or by the factor with all alternatives busy; exactly the other workers are probed |
| Pickers.LiveWorkers | src/inference_queue.rs:1583-1590 | exactly the usable workers, in ascending order |
| Pickers.PowerOfTwoPick | src/inference_queue.rs:1578-1608 | with two usable workers, for every random draw a usable one no more loaded than another usable one; else the least-loaded pick; every worker is probed |
| Pickers.RendezvousPick | src/inference_queue.rs:1614-1642 | the rendezvous choice over the usable workers, none exactly when there is none; every worker is probed |
| Pickers.PickWorker | src/inference_queue.rs:1503-1534 | always safe; without affinity the least-loaded pick; with it the usable preferred worker, or the lighter of two when that one is overloaded, and the rendezvous choice when it is not usable; the probes depend on nothing but the health, the exclusions and whether there is a routing key |
| Pickers.BatchDirectPin | src/inference_queue.rs:854-863 | the pin is w exactly when some item is pinned to w and no item to another worker |
| Pickers.BatchAffinity | src/inference_queue.rs:1457-1495 | the first routing key of the batch, and a preferred worker exactly when there are registry hits and all agree |
| Pickers.ChooseWorker | src/inference_queue.rs:1940-1969 | always safe; the agreed pin whenever that worker is usable, otherwise all that the ordinary selection promises; a pin is asked about first and the others only when it cannot be used |
| Pickers.AskedIsProbed | src/inference_queue.rs:1940-1969 | the worker chosen was probed exactly when it is the agreed pin, or there are others and the batch has a routing key or the worker has not failed yet |
| Rendezvous.Choice | src/inference_queue.rs:1610-1642 | the unique live worker with the highest hash, the lowest index on ties |
| Rendezvous.ChoiceOfUnion | src/inference_queue.rs:1610-1642 | for every hash the choice over a union is one of the choices over its parts |
| Rendezvous.RemovalMovesOnlyOrphans | src/inference_queue.rs:1610-1642 | removing workers moves exactly the sequences they held |
| Rendezvous.AdditionMovesOnlyOntoNew | src/inference_queue.rs:1610-1642 | adding a worker moves sequences only onto it |
| Replies.SettleSplits | src/inference_queue.rs:2038-2187 | whatever one attempt comes to, answered and remaining channels together are the batch |
| Replies.AnswersAccount | src/inference_queue.rs:2190-2282 | over all attempts answered and unanswered channels make up the batch, and none is unanswered exactly when no one is stranded |
| Replies.ExactlyOneAnswer | src/inference_queue.rs:2190-2282 | for every sequence of outcomes and retry limit no caller is answered twice, and all exactly once if and only if no successful single reply meets a longer batch |
| Replies.ConformingWorkersNeverStrand | src/inference_queue.rs:2133-2146 | workers that answer singly only to single requests never strand a caller |
| Replies.LoneReplyStrands | src/inference_queue.rs:2133-2146 | two requests, one successful single reply: one caller is never answered |
| Replies.OwnAnswer | src/inference_queue.rs:2045-2071 | each caller of a batch gets what the last entry with its own uid says, and the missing-item error exactly when there is none |
| Replies.ScoreFollowsReply | src/inference_queue.rs:2038-2187 | from what came back alone: an attempt counts against its worker exactly for a time-out, a failed send, an unexpected type, an error outside 400 to 499 or a batch reply that leaves out or fails some item; not at all when nobody was asked or the request was at fault; for it otherwise |
| Replies.EveryAnswerExplained | src/inference_queue.rs:1692-2282 | every answer is accounted for by what came back: the entry with the caller's uid, its absence, the single response, or for those left at the end the time-out, transport, type, worker or no-worker failure of the last attempt and no other |
| Replies.SingleReplyGoesToLast | src/inference_queue.rs:2092-2146 | a single response that is forwarded answers the last item of the batch, and one that is retried nobody |
| Replies.ReplyOrderIrrelevant | src/inference_queue.rs:2045-2071 | permuting the entries of a batch reply changes nothing |
| Replies.ExhaustedReportsLast | src/inference_queue.rs:2278-2281 | when no attempt gets through every caller hears what came of the last one |
| SendRetry.AnswerBatch | src/inference_queue.rs:2054-2071 | one answer per item in order, ok exactly when every item was found without error |
| SendRetry.ServedProbeCloses | src/inference_queue.rs:292-304 | an attempt on a slot whose backoff is up, if it was asked about, closes the circuit when the worker served, reopens it with the series one higher when the worker failed and leaves it half-open after a request-level error, all from the reply alone; a slot taken unasked stays open on its old series |
| SendRetry.AttemptOnClosedSlot | src/inference_queue.rs:542-575 | an attempt on a closed slot adds exactly one error when the worker failed and opens the circuit exactly at the threshold with room, clears errors and kills when it served, and changes nothing after a request-level error |
| SendRetry.AttemptDecidesCircuit | src/inference_queue.rs:1940-2187 | the same for every attempt of every sending, with the condition read off the batch and the attempts before: pinned, or in a larger fleet with a routing key or not yet failed |
| SendRetry.AttemptCountsFailure | src/inference_queue.rs:2054-2187 | the closed-slot result for every attempt of every sending |
| SendRetry.AsksFitWorker | src/inference_queue.rs:1369-1419 | in every sending an attempt asks a worker that runs, is neither recycling nor backing off and has not failed yet, whenever there is one |
| SendRetry.ExcludedAre | src/inference_queue.rs:2249-2276 | later attempts avoid exactly the workers asked before, and worker 0 after an attempt that could ask nobody |
| SendRetry.LoneWorkerStaysOpen | src/inference_queue.rs:1375-1377 | a lone ejected worker that no request pins stays ejected whatever it answers |
| SendRetry.LastScoreTells | src/inference_queue.rs:2054-2187 | only the last attempt made can be scored a success, exactly when the sending succeeded |
| SendRetry.ScoresStayOnAsked | src/inference_queue.rs:1940-2187 | a slot the sending did not ask and no other task touched is as before, or turned half-open with its backoff up |
| SendRetry.RequestFaultsBlameless | src/inference_queue.rs:2091-2116 | after request-level errors alone every slot no other task touched is as before, or turned half-open with its backoff up: no error counted, no circuit opened or closed |
| SendRetry.AttemptsKeepTickets | src/inference_queue.rs:1861-2187 | no attempt takes or returns a recycle ticket |
| SendRetry.DoSendBatch | src/inference_queue.rs:1861-2187 | the attempt does exactly what the specification of its outcome says: selects by the state it finds, probes exactly the slots that selection asks about, records exactly its score after whatever other tasks did meanwhile, and takes back the in-flight count it took |
| SendRetry.FailBatchItems | src/inference_queue.rs:1692-1715 | every remaining item gets the reported failure, once and in order |
| SendRetry.Attempt | src/inference_queue.rs:2249-2281 | the attempts form a trace of the specification, each needed, each avoiding the workers already blamed when it can, within the budget; the answers are those of the specification |
| SendRetry.SendBatchWithRetry | src/inference_queue.rs:2190-2344 | exactly-one-answer as above over the attempts made, at most max(1, max_retries) of them, one for a lone worker and exactly that many while the batch is not settled; each leaves the outlier state as the specification says; the budget of the worker that finally served, and no other, is charged once with the whole batch, exactly when it succeeded and is not all warmup |
| SendRetry.RetriesVisitNewWorkers | src/inference_queue.rs:2249-2276 | while all workers live, two attempts of one sending never ask the same worker as long as there are enough |
| Inflight.InflightCounts | src/inference_queue.rs:1977-2187 | in every interleaving of sendings a worker's counter is the number of attempts under way on it and never wraps |
| Budget.WorkerBudgets.CheckWorkerBudget | src/inference_queue.rs:2293-2344 | one charge of the specification on the slot named, the probe after a refused claim included, and nothing for an unknown slot |
| Budget.ClaimedExactlyWhen | src/inference_queue.rs:2293-2332 | a charge recycles the slot exactly when it reaches a threshold that is set, a channel exists, the slot is alive, closed and idle and fewer slots than the cap recycle; the count is then 0 and otherwise grows by the batch |
| Budget.CrossingClaims | src/inference_queue.rs:2293-2332 | the same after every run, so a served batch leaves the count below its threshold unless the claim was refused or there is no channel |
| Budget.BudgetPacing | src/inference_queue.rs:2284-2344 | in every run credited requests are those used up by won claims plus the count, each won claim uses up at least the threshold, and a slot is recycled again only after its recycle ended |
| Budget.RefusalRetries | src/inference_queue.rs:2312-2331 | a refused claim keeps the crossed budget and changes nothing but to probe the slot charged unless it is recycling, and the next completion decides on a claim again |
| BudgetRaces.ClaimUsesAdded | src/inference_queue.rs:2305-2332 | in every interleaving, refused claims included, a won claim uses up at least the threshold if and only if that much was added since the last store |
| BudgetRaces.CrossesExactly | src/inference_queue.rs:2305-2310 | in every interleaving a completion goes on to claim exactly when what was added since the last store together with its own requests reaches the threshold |
| BudgetRaces.ClaimWinsExactly | src/inference_queue.rs:2312-2332 | a claim wins exactly on a slot not recycling, and only the winner's store clears the count |
| BudgetRaces.FreshClaimsUseThreshold | src/inference_queue.rs:2305-2332 | in every interleaving nothing credited is lost, and a won claim whose completion added after the last store uses up at least the threshold |
| BudgetRaces.StaleClaimUsesNothing | src/inference_queue.rs:2305-2332 | a completion that crossed before another's store recycles the fresh worker having used up nothing |
| StreamPermits.PermitsBounded | src/inference_queue.rs:1761-1797 | with a limit, in every interleaving the counter is the holders plus pending roll-backs and the holders never exceed the limit |
| StreamPermits.PermitDecision | src/inference_queue.rs:1772-1784 | in every interleaving a caller gets a permit exactly when fewer callers than the limit are counted |
| StreamPermits.UnlimitedReleaseWraps | src/inference_queue.rs:1772-1797 | acquire and release restore the counter exactly when a limit is set; without one it wraps |
| Admission.AdmissionBounded | src/admission.rs:49-84 | in every interleaving of loads, swaps, drops, parks, clones and takes the count is the outstanding guards, never above the cap, and every guard is released at most once |
| Admission.AdmitsExactlyWithRoom | src/admission.rs:49-70 | in every reachable state an undisturbed attempt admits exactly when there is room, or no cap |
| Admission.TakeIsOneShot | src/admission.rs:111-117 | a take hands the parked guard over unreleased, the last clone of the cell then releases nothing, and a second take finds the cell empty and changes nothing |
| Admission.ParkedGuardIsReleasedOnce | src/admission.rs:86-117 | parking counts nothing, and of the clones of the cell the last alone releases the guard |
| LogRotation.SizeRotatingAppender.constructor | src/logging.rs:393-415 | opens the current file, creating it when missing |
| LogRotation.SizeRotatingAppender.New | src/logging.rs:393-415 | a zero size is refused first, then a zero backup count; otherwise a valid appender with every file of the directory kept, on a fresh directory the start of every run |
| LogRotation.SizeRotatingAppender.ShiftBackups | src/logging.rs:433-440 | for any directory, every backup below the last moves up one number |
| LogRotation.SizeRotatingAppender.RemoveExcess | src/logging.rs:445-453 | terminates on any directory and deletes exactly the run of numbers right past the last backup |
| LogRotation.SizeRotatingAppender.Rotate | src/logging.rs:417-460 | for any directory the result is what the specification says of every file number |
| LogRotation.RotationMoves | src/logging.rs:417-460 | what a rotation of any directory comes to, file by file: an empty current file, the old one as backup 1, every backup one number up, the number past the last free, and files behind a gap untouched |
| LogRotation.SizeRotatingAppender.Write | src/logging.rs:464-474 | appends to the current file exactly when the result is within the limit, and otherwise starts a new one with the buffer and keeps the old one as backup 1 |
| LogRotation.RunShowsNewest | src/logging.rs:417-474 | after any writes to a fresh directory the files are exactly the newest backup_count+1 of all segments ever filled |
| LogRotation.SegmentsKeepEverything | src/logging.rs:464-474 | the segments concatenate to everything written |
| LogRotation.SegmentsPacked | src/logging.rs:464-474 | no rotation comes early: two neighbouring segments together always exceed the limit |
| LogRotation.RotationKeepsNewest | src/logging.rs:417-474 | at most backup_count backups exist; read from the oldest the files are a suffix of everything written, all of it up to backup_count rotations |
| LogRotation.FilesBounded | src/logging.rs:464-474 | no file outgrows the larger of max_size and the longest single write |
| ClientIp.SegmentsTrim | src/client_ip.rs:64-69 | white space around a header line never changes its segments |
| ClientIp.SegmentsConcat | src/client_ip.rs:64-69 | a comma between two texts concatenates their segments |
| ClientIp.PartSegments | src/client_ip.rs:64-69 | a part without a comma is one segment with the outer white space stripped, and none when blank |
| ClientIp.SegmentsRoundTrip | src/client_ip.rs:44-69 | joining trimmed comma-free texts and splitting again gives the texts back |
| ClientIp.MergeConcatenates | src/client_ip.rs:44-57 | the merged header has exactly the segments of its lines in order, the combining rule of section 5.3 of RFC 9110 |
| ClientIp.LastStop | src/client_ip.rs:72-84 | the rightmost segment that is invalid or not trusted |
| ClientIp.ClientMeans | src/client_ip.rs:72-94 | with only trusted addresses to the right, a segment that is no address ends the walk with nothing, and an untrusted address, or a trusted one with nothing before it, is the client |
| ClientIp.WalkXff | src/client_ip.rs:64-94 | the address at the rightmost stop, nothing when that is no address, the leftmost segment when all are trusted |
| ClientIp.PrefixIrrelevant | src/client_ip.rs:59-94 | once a suffix holds a stop no prefix changes the result |
| ClientIp.UntrustedPeerIgnoresHeaders | src/client_ip.rs:120-134 | an untrusted peer is the client whatever the headers; with a peer there is always an address |
| ClientIp.ResolutionOrder | src/client_ip.rs:97-134 | behind a trusted peer, or with none, the forwarded chain decides, then the stripped real-ip header if it is an address, then the peer |
| ClientIp.ForgedLinesIrrelevant | src/client_ip.rs:97-134 | header lines put before the proxies' own lines never change the extracted address, provided the proxies' lines hold a hop that is not trusted or no address |
| ClientIp.ForgedLinesBelieved | src/client_ip.rs:86-134 | without such a hop, and with any segment before it, the address is the one the lines put before say |
| ClientIp.ForgedPrefixIrrelevant | src/client_ip.rs:59-94 | nor does text put before the value inside one line, provided that value holds a hop that is not trusted or no address |
| DevicePlan.RoundRobinAt | src/config.rs:1585-1587 | entry i is device i mod the list length, every listed device as often as there are workers per device |
| DevicePlan.ParseList | src/config.rs:1606-1627 | accepted exactly when every entry is an index and none repeats; the indices in order |
| DevicePlan.ParseMap | src/config.rs:1629-1656 | accepted exactly when every key is an index and every count at least one |
| DevicePlan.SortOrderIrrelevant | src/config.rs:1656-1663 | any order of equal devices after the sort expands to the same plan |
| DevicePlan.Dedup | src/config.rs:1672-1676 | the same devices without repetition, in the order of their first occurrence |
| DevicePlan.ResolveBase | src/config.rs:1577-1672 | a plan exists exactly for the accepted settings; an integer N gives i mod N, a list its devices in turn each w times, a map an ascending plan with the counts summed over the keys naming a device |
| DevicePlan.ResolveDevicePlan | src/config.rs:1577-1679 | every accepted plan is non-empty; continuous batching keeps one worker for each device of the base plan |

## Left out

- OutlierRuns.EjectionCap: holds of whole calls; EjectionRaces says what remains of it when ejections overlap.
- OutlierHistory.ChecksFollowTheLog: the three loads of an escalation's check are one step.
- Outlier.BackoffGrows: exact integers instead of `f64` durations; a base so long that the multiplication overflows is not modelled.
- Collector.AdaptiveTimeoutShrinks: exact reals instead of `f32`; the same holds of the relative threshold in Pickers.AffinityOverloaded.
- PriorityChannel.Channel.TrySend: the 64-bit insertion counter is unbounded.
- Pickers.PickWorker: a selection is one step for other tasks; counters and slots they change between two of its loads are not modelled.
- SendRetry.DoSendBatch: other tasks act on the outlier state between selection and reply; what they do to the in-flight counters is in Inflight; recording sequence ids in the registry is left out.
- Budget.BudgetPacing: holds of whole calls; BudgetRaces says what remains of it between single operations.
- DevicePlan.ResolveDevicePlan: plan lengths are unbounded; the text of a map key is read by an arbitrary function.
- Memory orderings weaker than sequential consistency.
- ZeroMQ transport, protobuf, tasks and timers of the runtime, metrics and log messages.
- `recycle_worker`, the probe loop of `health_checker`, worker processes, streaming guards and the per-slot stream counter.
- `model_version_key` and `compute_jittered_max_requests`: they would only add easy members.
- Failed renames, several processes writing one log, daily and hourly log cleanup.
- Address and network parsing, the rest of the configuration, access control, deadlines, callbacks, HTTP and gRPC handlers, ensembles, the Python package and the UI.
