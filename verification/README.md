# Runinator: queues, leases and durable work

Runinator runs workflows. Two layers decide whether a piece of work is done exactly as often as it
should be: an in-memory broker whose channels lease deliveries to consumers, and a set of SQL
statements that move work through tables shared by any number of schedulers, workers and archivers.
This project models both layers and proves what they keep over whole runs, with redelivery, lease
expiry and a crash between any two steps.

`dafny verify dfyconfig.toml` checks everything (Dafny 4.11). Nothing here is executed.

## How the model is built

- **Broker channels.** `Channel` is one leased channel as a value; `LeasedChannel` is the same
  channel as the object the broker keeps under its lock, loop by loop, for the four deduped channels
  (action, result, wake, ingress) and, with policy `Expiring`, for the control channel. A ghost
  history ties every call of the class to the event runs of `ChannelRuns` and `ChannelTheorems`;
  `ChannelLeases` adds the lease deadlines. `Wakeup` and `WakeupOne` take the wakeup protocol apart
  into register, scan, block, push and notify; beside any run of either, `WakeupChannel` keeps the channel
  itself, with the same deliveries queued. `DefaultLoops` holds the targeting loops other
  backends inherit.
- **Durable work.** A table is a map; one statement, or one `begin ... commit` block, is one atomic
  step. `Orchestration` has runs and ready nodes, proved about in `ReadyRuns`, `ReadyClaims` and
  `RunStatus`; `NodeRuns` has node runs with their result events, chunks and executors; `Triggers`
  cron firing; `Dispatches` the action outbox; `Archive` the archivers, proved about in `ArchiveRuns`,
  `ArchiveVersions` and `ArchivePass`. `WorkStore`, `NodeRunStore`, `DispatchStore`, `Triggers.TriggerStore` and
  `Archiver` are the same operations as classes whose methods follow the source statement by
  statement; each method is proved equal to a step, or a short run, of the step system, and says
  column by column which rows it takes, in which order, and what it writes.
- **Statements that come in pairs.** On MySQL a claim is an `UPDATE` and, later, a `SELECT` by
  (holder, deadline); `ReadBacks`, `ArchiveClaims` and `DispatchClaims` say what the second returns
  any number of steps after the first, and an archiver's run goes on with what its read-back returned.
  `ChunkRaces` has the read and the insert of a chunk append apart, and `ChunkPaging` says what readers
  get to see then.
- **Leases.** `Leases` is one small protocol (grant, renew, release, and what each owner believes).
  Ready nodes, workflow-run claims, executors, archive marks (`ArchiveExclusion`) and dispatches
  (`DispatchClaims`) are mapped to it, so mutual exclusion is proved once, and so is what breaks it.
- **Results end to end.** `ResultPipe` composes the result channel with the transactions that apply
  result events and enqueue what they drive. `EffectivelyOnce` says what becomes of every event,
  `ResultLoss` exactly when one is lost, `ResultDrives` when its drive is; `Replays` deletes repeated
  events from runs with everything else interleaved.
- **SQL text.** `Render` is the placeholder rewriting for Postgres.

Fresh ids (random or time-ordered UUIDs) are counters. Hash-map iteration is an arbitrary order.
`SKIP LOCKED` lets a claim pass over an arbitrary set of rows; a claim without it passes over none.
`LIMIT` with `ORDER BY` is `Selection.First`, characterised by `FirstIsFirst` and `FirstIsUnique`.
Clocks, query answers, failures and the cron parser are parameters; the only thing assumed of the
parser is that the next occurrence is strictly later (`find_next_occurrence(.., false)`). Database
times are whole seconds, broker times milliseconds.

## What turned out not to hold

Each of these has a lemma with a run or an input that shows it, next to what does hold.

- A consumer can be left asleep beside a delivery it wants: after a reclaim on the action and control
  channels (`Wakeup.ReclaimCanStrandASleeper`), after two pushes on the `notify_one` channels
  (`WakeupOne.TwoConsumersCanLoseAWakeup`). On either kind it can happen exactly when the channel has two
  consumers or more (`Wakeup.SleepersAreStrandedIffShared`, `WakeupOne.WakeupsAreLostIffShared`). The
  consumer then sleeps until its timer.
- An ack is tied neither to a consumer nor to the lease time: it succeeds, however late, exactly if no
  ack or nack of the same id and no receive at or after its deadline came first
  (`ChannelLeases.SettlesUntilReclaimed`).
- The comment on `enqueue_ready_node` speaks of one live pending generation; a row waiting for a later
  time survives an enqueue (`RunStatus.TwoPendingRows` is such a run), and one pending row is left
  exactly when none was waiting (`ReadyRuns.OnePendingIffNoneFuture`).
- MySQL's read-back by (holder, deadline), right after its update, equals `UPDATE ... RETURNING`
  exactly when no other row already carried that pair (`Leases.ReadBackIsReturning`). Completed ready
  nodes keep their claim columns, so it can fail for them (`ReadyClaims.ReadBackCanReturnCompleted`).
  Later on it returns a granted row exactly when nothing has touched its claim columns, or the same
  pair was written again (`ReadBacks.NodesReadBackLater`, `ReadBacks.RunsReadBackLater`); in
  `ReadBacks.GrantedRowIsMissing` a release comes in between.
- A terminal workflow-run status is not final: it lasts exactly until an update to a live status or the
  archiver's delete (`RunStatus.TerminalLastsIffNotTakenOut`, with the run `RunStatus.TerminalRunCanReopen`).
  While the run is stored and not reopened all its pending nodes, later enqueues included, are up for
  settling; after a reopening none is (`RunStatus.PendingIsDoomedUntilReopened`).
- The archiver can delete a live workflow run: only the marking asks for a terminal status
  (`RunStatus.LiveRunIsArchived`). A deleted run has been terminal since it was marked exactly if no update
  reopened it since (`RunStatus.ArchivedWasOver`).
- Archive-mark and dispatch claims need not exclude each other: failing a row does not ask who holds
  it. They do exclude each other as long as nobody fails a row that somebody else holds, and the first
  such failure opens the row to a second holder at once (`ArchiveExclusion.HoldersExclude` and
  `FreeingAnotherBreaksExclusion`, the same in `DispatchClaims`). No archived row is lost all the same
  (`ArchiveRuns.NoRowIsLost`).
- An update between fetch and delete is lost with the row (`ArchiveVersions.StaleCopyIsFiled`). The
  last version is filed exactly if a filed copy was fetched after the row's last change
  (`ArchiveVersions.LastIsFiledIffFetchedLast`).
- A result event can be lost: giving up goes on to the ack even if the dead letter cannot be written
  (`ResultLoss.OutageLosesAnEvent`). A move loses an event exactly if it acks a delivery in flight of one
  that is neither applied nor dead-lettered (`ResultLoss.MoveLosesIff`); over a run that is, exactly if it
  was acked, never applied and never recorded (`ResultLoss.LostIffAckedUnaccounted`).
- The drive of an applied terminal event can be lost: a give-up after the apply acks the event before its
  ready node is enqueued (`ResultDrives.GiveUpStrandsARun`). It is lost exactly if the event is acked in
  flight before any delivery of it enqueued the drive (`ResultDrives.UndrivenIffAcked`), and never without a
  give-up (`ResultDrives.AckedIsDrivenOrGivenUp`).
- One trigger whose schedule the parser rejects can stop all cron triggers
  (`TriggerRuns.PoisonedTriggerStopsAll`); a batch commits exactly when no trigger it selects raises an error
  (`TriggerRuns.BatchCommitsIff`).
- Two terminal events that disagree make the final status depend on the order; the order is
  irrelevant exactly when all of them agree (`ResultEvents.OrderIrrelevantIffEndsAgree`).
- Appends whose number is read and inserted by two separate statements can race from any state
  (`ChunkRaces.RaceIsReachable`). All readers of a node run's chunks are complete exactly if no insert comes
  between an appender's read and its own insert (`ChunkPaging.PagingIsCompleteIffNobodyInterferes`), which is
  also exactly when the numbers are 1 to n (`ChunkRaces.NumberedIffNobodyInterferes`). The chunk of the first
  append that is interfered with is lost for good to every reader that had all chunks before it
  (`ChunkPaging.FirstInterferenceIsLost`).
- The inherited targeting loop finds a match behind a mismatch only if a nack requeues at the tail; at
  the head it returns exactly when the head matches (`DefaultLoops.HeadRequeueBlocksDefaultLoop`).
- Rendering changes the meaning of a template exactly when a `?` or `$` stands directly before a digit
  (`Render.RenderKeepsMeaning`).

## Model

| member | source | states |
|---|---|---|
| InMemory.LeasedChannel.Publish | runinator-broker/src/in_memory.rs:149-163 | refused exactly when a deduped channel holds the given or derived key; otherwise a delivery with the next id, the message's body, that key (none on the control channel) and its time goes to the end of the queue, the key to the dedupe set, and nothing else moves |
| InMemory.LeasedChannel.ExpiredIds | runinator-broker/src/in_memory.rs:560-565 | the leases whose deadline is at or before now, each once, in some order |
| InMemory.LeasedChannel.ReclaimExpired | runinator-broker/src/in_memory.rs:500-507 | exactly the expired leases end; each delivery is back in front of those reclaimed before it, under the next free id, and the queue behind them is as it was |
| InMemory.LeasedChannel.RetainFresh | runinator-broker/src/in_memory.rs:523-527 | the retain filter, which `Channel.RetainedOne` and `Channel.RetainedAppends` determine |
| InMemory.LeasedChannel.DropStaleControls | runinator-broker/src/in_memory.rs:523-527 | only the control channel drops, and exactly what is 300 000 ms old or older; the rest keeps its order |
| InMemory.LeasedChannel.FirstIndex | runinator-broker/src/in_memory.rs:184-187 | the first matching position, or the queue length |
| InMemory.LeasedChannel.TryReceive | runinator-broker/src/in_memory.rs:91-129 | one locked pass: reclaim, drop stale, lease the first match; one run event |
| InMemory.LeasedChannel.ReceiveFor | runinator-broker/src/in_memory.rs:171-210 | a delivery for `Any` goes to no exclusive consumer, one for a replica to that replica alone, one for labels to a consumer that holds each with its value; it is leased until now plus the lease; on none, no queued delivery fits the consumer |
| InMemory.LeasedChannel.ReceiveHead | runinator-broker/src/in_memory.rs:296-322 | the head of the swept queue, leased, the rest in order |
| InMemory.LeasedChannel.Ack | runinator-broker/src/in_memory.rs:212-220 | succeeds exactly for an in-flight id, whoever calls; ends that lease, frees its key on a deduped channel and leaves the queue alone |
| InMemory.LeasedChannel.Nack | runinator-broker/src/in_memory.rs:222-234 | succeeds exactly for an in-flight id; the delivery is at the front under the next id, otherwise as it was, and its key stays held |
| Channel.ReclaimInColumns | runinator-broker/src/in_memory.rs:500-507 | what a reclaim in any order leaves: the queue behind the reclaimed deliveries, their places, ids and contents, and the other leases |
| Channel.Stale | runinator-broker/src/in_memory.rs:574-579 | stale means 300 000 ms or older, although the age is compared in whole seconds |
| Channel.RetainedOne | runinator-broker/src/in_memory.rs:523-527 | a delivery is kept exactly while it is younger than 300 000 ms |
| Channel.RetainedAppends | runinator-broker/src/in_memory.rs:523-527 | what is kept of a queue is what is kept of its front and then of its rest |
| ChannelRuns.StepKeeps | runinator-broker/src/in_memory.rs:149-234 | every call keeps the channel invariant, and the history follows the channel |
| ChannelTheorems.RunKeeps | runinator-broker/src/in_memory.rs:149-476 | the channel invariant holds after every sequence of calls |
| ChannelTheorems.DedupeIsExact | runinator-broker/src/in_memory.rs:282-346 | after any run the dedupe set is exactly the keys held in queue or flight, no two held deliveries share key or id, and each lease sits under its own id |
| ChannelTheorems.PublishSucceedsIffKeyNotLive | runinator-broker/src/types.rs:133-205 | after any run a publish succeeds exactly when no held delivery has the derived key |
| ChannelTheorems.AcceptedIsConserved | runinator-broker/src/in_memory.rs:149-346 | each accepted message is in exactly one place: queued or in flight once, acked, or a control dropped at an age of 300 000 ms or more; nothing else is held |
| ChannelTheorems.StepMovesFates | runinator-broker/src/in_memory.rs:212-280 | a live message leaves the channel only by an ack of its in-flight id or as a stale control |
| ChannelTheorems.DeliveryIdsAreFenced | runinator-broker/src/in_memory.rs:567-600 | over any run an id is handed out at most once, settled at most once, and not handed out after settling |
| ChannelTheorems.DeadIdsStayDead | runinator-broker/src/in_memory.rs:500-507 | an issued id that is neither queued nor in flight is refused by every later ack and nack |
| ChannelTheorems.SettlesIffNotRetired | runinator-broker/src/in_memory.rs:212-234 | the general form: whatever leases the receives reclaim, an ack or nack succeeds exactly if no ack, nack or reclaim of that id came since it was handed out |
| ChannelLeases.SettlesUntilReclaimed | runinator-broker/src/in_memory.rs:500-565 | when receives reclaim exactly the leases whose deadline has come, an ack or nack succeeds exactly if no ack or nack of that id and no receive at or after its deadline came since it was handed out; it may itself be late |
| ChannelLeases.RedeliveryWaits | runinator-broker/src/in_memory.rs:500-565 | lease exclusion: a message goes out a second time only after its first consumer nacked it or a receive ran at or after the end of its lease |
| ChannelLeases.StepKeepsLease | runinator-broker/src/in_memory.rs:500-507 | a call that does not retire a delivery leaves its deadline alone |
| ChannelTheorems.ReceiveTakesFirstMatch | runinator-broker/src/in_memory.rs:171-210 | the first match of the swept queue goes out under a lease, the others keep their order |
| ChannelTheorems.ReceiveDropsStale | runinator-broker/src/in_memory.rs:91-129 | the control channel neither hands out nor leaves queued anything 300 000 ms old or older |
| ChannelTheorems.ControlsExpireFromPublish | runinator-broker/src/in_memory.rs:574-579 | no nack or reclaim makes a control younger: age counts from its publish |
| Targeting.MatchingIsMonotone | runinator-comm/src/targeting.rs:31-42 | more consumer labels or a smaller selector never lose a match |
| Targeting.MatchesIff | runinator-comm/src/targeting.rs:31-42 | each kind of target by itself: `Any`, labels, replica, and exactly which consumer may take it |
| Wakeup.WakeupsAreNotLost | runinator-broker/src/in_memory.rs:91-129 | in every reachable state a blocked, un-notified consumer coexists with a wanted delivery only if its pusher is yet to notify or a reclaim put it there |
| Wakeup.QuietMeansServed | runinator-broker/src/in_memory.rs:171-210 | with all pushes announced and nothing reclaimed nobody sleeps on a match |
| Wakeup.ReclaimCanStrandASleeper | runinator-broker/src/in_memory.rs:171-210 | in any set of consumers that holds two, a run ends with all pushes announced and one of them asleep beside a delivery it wants |
| Wakeup.SingleCallerIsAlone | runinator-broker/src/in_memory.rs:171-210 | a consumer that has an action or control channel to itself is never stranded, whatever it reclaims |
| Wakeup.SleepersAreStrandedIffShared | runinator-broker/src/in_memory.rs:171-210 | some run of a set of consumers strands one of them beside an announced or reclaimed delivery if and only if the set holds at least two |
| WakeupChannel.PassShows | runinator-broker/src/in_memory.rs:171-204 | a locked pass of the wakeup protocol leaves queue and leases as the channel's own receive does, and the consumer's call ends exactly when that receive hands out a delivery |
| WakeupChannel.StepShows | runinator-broker/src/in_memory.rs:149-234 | a push, a nack, an ack or a pass of the protocol changes queue and leases as the channel's own call does; a notification wakes everybody registered or asleep and moves nothing |
| WakeupChannel.QueueIsTheChannels | runinator-broker/src/in_memory.rs:91-210 | beside every run of the protocol the channel has the same ids queued in the same order, with the same targets, and the same ones in flight |
| WakeupChannel.PassCounts | runinator-broker/src/in_memory.rs:296-317 | a consumer of a `notify_one` channel takes the head after the reclaim, and finds nothing exactly when there is none |
| WakeupChannel.CountsAreTheChannels | runinator-broker/src/in_memory.rs:282-346 | beside every run of a `notify_one` protocol the channel has as many deliveries queued, and as many in flight |
| WakeupOne.SingleConsumerIsServed | runinator-broker/src/in_memory.rs:296-322 | with one consumer a `notify_one` channel loses no wakeup |
| WakeupOne.TwoConsumersCanLoseAWakeup | runinator-broker/src/in_memory.rs:296-322 | in any set of consumers that holds two, a run loses a wakeup |
| WakeupOne.WakeupsAreLostIffShared | runinator-broker/src/in_memory.rs:296-322 | some run of a set of consumers loses a wakeup if and only if the set holds at least two |
| DefaultLoops.FifoBackend.ReceiveFor | runinator-broker/src/lib.rs:62-71 | the receive, check, nack loop is the function `TargetLoop`: the first match within one receive per queued delivery, leaving the rest as a rotation |
| DefaultLoops.TargetLoopFindsFirst | runinator-broker/src/lib.rs:62-71 | for every queue and budget the loop returns exactly when the budget covers the first match, returns that match, and loses nothing |
| DefaultLoops.FifoBackend.ReceiveControlFor | runinator-broker/src/lib.rs:96-113 | the first match whatever its age; only mismatches of at least 300 s are acked; nothing is lost |
| DefaultLoops.ControlLoopIsSound | runinator-broker/src/lib.rs:88-113 | for every queue, clock and budget the control loop gets the first match in reach, puts mismatches back in order, acks only moot ones and loses nothing |
| DefaultLoops.ScanRefinesDefaultLoop | runinator-broker/src/in_memory.rs:171-210 | the in-memory scan, whatever it reclaims first, hands out what the default loop hands out on the queue after the reclaim, and leaves the same multiset |
| DefaultLoops.HeadRequeueBlocksDefaultLoop | runinator-broker/src/in_memory.rs:222-234 | on a channel whose nack requeues at the head, the loop returns, for every budget, if and only if the budget is positive and the head matches |
| DefaultLoops.HeadComesBack | runinator-broker/src/in_memory.rs:222-234 | a receive and a nack give back the same channel but for a new id of the head |
| Selection.FirstIsFirst | runinator-database/src/operations.rs:2995-3003 | the selected rows are as many as the limit allows and precede all others in the order |
| Selection.FirstIsUnique | runinator-database/src/operations.rs:2995-3003 | nothing else satisfies that description |
| Leases.HoldersExclude | runinator-database/src/operations.rs:2964-3034 | over every run on a nondecreasing clock two owners never both hold an unexpired, unreleased grant |
| Leases.NextHolderWaits | runinator-database/src/operations.rs:2089-2121 | another owner's grant waits for the last deadline the holder heard, renewals included, or its release |
| Leases.ReadBackIsReturning | runinator-database/src/operations.rs:2975-3013 | a read-back right after its update returns the granted rows plus those that already carried the pair, so it equals `RETURNING` exactly when there is no such other row |
| Leases.CarriesIff | runinator-database/src/operations.rs:2975-3013 | a row carries a pair later on exactly if it carried it and nothing touched its claim since, or some statement in between wrote the pair and nothing touched it after |
| Leases.FreedIsShared | runinator-database/src/operations.rs:571-592 | freeing a claim its holder still relies on lets anybody else take the row at once, and then two hold it |
| ReadyRuns.EnqueueLeavesOneDue | runinator-database/src/operations.rs:2853-2962 | in every reachable state a row is returned exactly when the event is new; it is due when asked for, queued, pending, unclaimed and unannounced, the only due pending row of its (run, node), and claimable by anybody if due at once |
| ReadyRuns.OnePendingIffNoneFuture | runinator-database/src/operations.rs:2882-2905 | one pending row remains exactly when no row of the pair waited for a later time |
| ReadyRuns.RunKeeps | runinator-database/src/operations.rs:2882-2905 | in every reachable state, of two pending rows of a pair the older is due only after the newer was created |
| ReadyRuns.CompletionIsFinal | runinator-database/src/operations.rs:3051-3069 | a completed row stays completed until it is archived |
| ReadyRuns.StepMovesRow | runinator-database/src/operations.rs:2853-3265 | what any step may do to a stored row: completion, attempts and announcements move only as the statements say |
| ReadyRuns.AttemptsCountGrants | runinator-database/src/operations.rs:2964-3034 | `attempts` equals the number of grants over the whole run |
| ReadyRuns.AnnouncementsSpaced | runinator-database/src/operations.rs:3136-3163 | consecutive announcements are a lease past the later of the earlier one and the due time |
| ReadyRuns.AnnounceBound | runinator-database/src/operations.rs:3091-3163 | the k-th repeated announcement comes no earlier than k leases past the later of the first one and the due time |
| ReadyClaims.NodeHoldersExclude | runinator-database/src/operations.rs:2964-3034 | ready-node claims and releases refine the lease protocol, so holders exclude each other over every run |
| ReadyClaims.RunHoldersExclude | runinator-database/src/operations.rs:2021-2121 | the same for scheduler claims on workflow runs, with renewals |
| ReadyClaims.NextSchedulerWaits | runinator-database/src/operations.rs:3165-3238 | a grant to another scheduler waits for the holder's deadline or its own release |
| ReadyClaims.ClaimTakesFirst | runinator-database/src/operations.rs:3003-3034 | without skipped locks a batch is the max(limit, 1) first claimable rows by (ready_at, id); a due row is claimable again once its lease ended |
| ReadyClaims.PickInColumns | runinator-database/src/operations.rs:2975-3003 | a batch is at most max(limit, 1) rows, each pending, due, and with a claim that is unset, ended or the claimant's own |
| ReadyClaims.PickLeftOut | runinator-database/src/operations.rs:2975-3003 | any other such row that is not skipped comes after each granted one by (ready_at, id), and the batch is full |
| ReadyClaims.RunPickInColumns | runinator-database/src/operations.rs:2035-2065 | a scheduler's batch is runs of a requested status whose claim is unset, ended or its own |
| ReadyClaims.RunPickLeftOut | runinator-database/src/operations.rs:2035-2065 | any other such run comes after each granted one by (created_at, id), and the batch is full |
| ReadyClaims.AnnouncePickInColumns | runinator-database/src/operations.rs:3136-3163 | an announcement takes pending rows, due or not, under no live claim and no live announcement |
| ReadyClaims.AnnouncePassesOver | runinator-database/src/operations.rs:3136-3163 | any other such row comes after each announced one by (ready_at, id), and the batch is full |
| ReadyClaims.CompleteEachCompletes | runinator-database/src/operations.rs:3051-3069 | completing granted rows one by one completes exactly those |
| ReadyClaims.RoundIsClaimThenComplete | runinator-database/src/operations.rs:2964-3069 | the round the drain theorem counts is the claim followed by the completions, in any order |
| ReadyClaims.RoundShrinksPool | runinator-database/src/operations.rs:2964-3069 | one round takes min(limit, k) of k claimable rows |
| ReadyClaims.RoundsDrain | runinator-database/src/operations.rs:2964-3069 | n rounds leave max(0, k - n * limit) of k claimable rows, none exactly when n * limit >= k |
| ReadyClaims.NodeReadBackIsReturning | runinator-database/src/operations.rs:2975-3013 | right after its update the read-back of a batch claim equals the grant exactly when every row already carrying the pair is granted again |
| ReadyClaims.RunReadBackIsReturning | runinator-database/src/operations.rs:2035-2065 | the same for workflow runs, right after the update |
| ReadyClaims.ReadBackCanReturnCompleted | runinator-database/src/operations.rs:3004-3013 | a run in which the read-back returns a completed row |
| ReadBacks.NodesReadBackLater | runinator-database/src/operations.rs:2964-3013 | with any steps between update and read-back, a ready node is returned exactly if it was granted or carried the pair before and nothing released, re-granted or archived it since, or a later claim of the same pair granted it and nothing since |
| ReadBacks.RunsReadBackLater | runinator-database/src/operations.rs:2021-2065 | the same for workflow runs, with renewals and with runs the archiver deletes |
| ReadBacks.GrantedRowIsMissing | runinator-database/src/operations.rs:3221-3238 | a run in which a release by another process of the same scheduler empties the read-back of a successful claim |
| ReadyClaims.SettleTerminalDrains | runinator-database/src/operations.rs:3240-3265 | a backstop pass settles a full batch of pending rows of terminal runs and nothing else |
| RunStatus.TerminalLastsIffNotTakenOut | runinator-database/src/operations.rs:2183-2205 | over every run, a terminal status lasts from one state to another if and only if no step in between updates the run to a live status or archives it |
| RunStatus.StoredStaysOver | runinator-database/src/operations.rs:2183-2205 | as long as the run is stored, only an update to a live status ends a terminal one |
| RunStatus.TerminalRunCanReopen | runinator-database/src/operations.rs:2183-2205 | a run in which a succeeded workflow run is set to running again, keeps its finish time, and its pending node is no longer up for settling |
| RunStatus.PendingIsDoomedUntilReopened | runinator-database/src/operations.rs:3240-3265 | while a finished run is stored and not reopened all its pending nodes are up for settling, however late they came; the update that reopens it takes all of them out |
| RunStatus.ArchivedWasOver | runinator-database/src/operations.rs:140-149 | the archiver deletes only a run that was terminal and had no ready node when it was marked; it has been terminal ever since if and only if no update reopened it |
| RunStatus.LiveRunIsArchived | runinator-database/src/operations.rs:536-551 | a run in which a marked workflow run is reopened and then deleted while it is running |
| RunStatus.EnqueueAfterTheEnd | runinator-database/src/operations.rs:2853-2962 | an enqueue for a finished run is accepted and leaves a pending row up for settling |
| RunStatus.TwoPendingRows | runinator-database/src/operations.rs:2882-2905 | a run after which two rows of one (run, node) are pending, one of them waiting for a later time |
| WorkStore.WorkTables.CreateWorkflowRun | runinator-database/src/operations.rs:1928-1995 | a new id gets a queued run, created now, never started, claimed by nobody; nothing else changes |
| WorkStore.WorkTables.EnqueueReadyNode | runinator-database/src/operations.rs:2853-2962 | returns a row exactly for a new event with no row of its own; that row's every column; the due pending rows of the pair, and no others, are completed; a known event changes nothing |
| WorkStore.WorkTables.SettleDuePending | runinator-database/src/operations.rs:2893-2905 | each row afterwards: due pending rows of the pair are completed now, all others are as before |
| WorkStore.WorkTables.ClaimReadyNodes | runinator-database/src/operations.rs:2964-3034 | with nothing between the two statements: granted rows were pending, due and claimable by the claimant; other such rows come after them by (ready_at, id) behind a full batch; each row's columns afterwards; what comes back, on MySQL under the exact read-back condition |
| WorkStore.WorkTables.UpdateClaimedNodes | runinator-database/src/operations.rs:2975-3003 | the claim's update alone: picked rows get pair, attempt and status, all others are as before |
| WorkStore.WorkTables.SelectClaimedNodes | runinator-database/src/operations.rs:3004-3013 | the read-back alone returns whatever carries the pair by then, which `ReadBacks` characterises |
| WorkStore.WorkTables.ClaimReadyNode | runinator-database/src/operations.rs:3165-3219 | with nothing between the two statements: granted exactly if pending and claimable, due or not; the row's columns afterwards; what comes back on each dialect |
| WorkStore.WorkTables.CompleteReadyNode | runinator-database/src/operations.rs:3051-3069 | true exactly for the holder; the row is then completed now with its claim columns kept, and no other changes |
| WorkStore.WorkTables.ReleaseReadyNode | runinator-database/src/operations.rs:3221-3238 | true exactly for the holder of a pending row, which is then queued, free and claimable by anybody as soon as it is due |
| WorkStore.WorkTables.AnnounceReadyNodes | runinator-database/src/operations.rs:3119-3163 | on the dialects with `RETURNING`: announced rows were pending, unclaimed and unannounced, others of the kind come after them behind a full batch; each holds its announcement for the lease past the later of now and its due time, and is otherwise as before |
| WorkStore.WorkTables.SettleTerminalRunReadyNodes | runinator-database/src/operations.rs:3240-3265 | only pending rows of runs in one of the four terminal statuses are completed, a full batch if that many are left |
| WorkStore.WorkTables.UpdateWorkflowRunStatus | runinator-database/src/operations.rs:2183-2225 | two steps; the run's status, its start time if running for the first time, its finish time for each of the four terminal statuses; then all its pending nodes, due or not, are completed, and no other row changes |
| WorkStore.WorkTables.ClaimWorkflowRuns | runinator-database/src/operations.rs:2021-2087 | nothing for an empty status list; otherwise granted runs had a requested status and were claimable by the claimant, other such runs were created after them and find a full batch; each run's columns afterwards; what comes back on each dialect |
| WorkStore.WorkTables.RenewWorkflowRunClaim | runinator-database/src/operations.rs:2089-2104 | only the holder moves the deadline, and nothing else of the run |
| WorkStore.WorkTables.ReleaseWorkflowRunClaim | runinator-database/src/operations.rs:2106-2122 | only the holder frees the claim; the run is then claimable by everybody at any time and otherwise unchanged |
| NodeRunStore.NodeRunTables.CreateWorkflowNodeRun | runinator-database/src/operations.rs:2228-2281 | a new node run is queued at attempt 0 with every other column empty |
| NodeRunStore.NodeRunTables.ApplyWorkflowResultEvent | runinator-database/src/operations.rs:2634-2732 | nothing for a known event; a new artifact event adds that artifact, a new chunk event that chunk under the next number, a new status event sets the row's columns unless the row has one of the four terminal statuses and the event none of them, or the attempt is superseded; no other table or row changes |
| NodeRunStore.NodeRunTables.NextSequence | runinator-database/src/operations.rs:2693-2698 | one more than the greatest stored number of the node run, 1 if there is none |
| NodeRunStore.NodeRunTables.ClaimNodeRunExecutor | runinator-database/src/operations.rs:2357-2383 | succeeds exactly when the slot is free or its claim older than the cutoff; the winner's name and time are stored, the release time cleared, nothing else changed |
| NodeRunStore.NodeRunTables.ReleaseNodeRunExecutor | runinator-database/src/operations.rs:2385-2408 | the holder leaves its name as last executor, the slot and the release time; a release by anybody else changes nothing |
| NodeRunStore.NodeRunTables.UpdateWorkflowNodeRun | runinator-database/src/operations.rs:2283-2320 | sets every column of any stored row, terminal or not, as given or as before, with start and finish times by status; executor columns and every other row stay |
| Executors.ExecutorsExclude | runinator-database/src/operations.rs:2357-2408 | with staleness window D the executor columns refine the lease protocol: two replicas never both hold a live claim |
| Executors.ExecutorKept | runinator-database/src/operations.rs:2385-2408 | only a winning claim or the holder's release changes the executor |
| Executors.ClaimsFarApart | runinator-database/src/operations.rs:2357-2383 | successive winning claims without a release are more than D seconds apart |
| ResultEvents.RepeatsChangeNothing | runinator-database/src/operations.rs:2634-2661 | applying any delivery sequence equals applying its first occurrences |
| ResultEvents.FirstsAreDistinct | runinator-database/src/operations.rs:2640-2661 | the first occurrences hold each event once and lose none |
| ResultEvents.ReportsAreStored | runinator-database/src/operations.rs:2693-2732 | new events store exactly the artifacts and chunks they report, in order |
| ResultEvents.TerminalIsKept | runinator-database/src/operations.rs:2662-2691 | result events alone never take a node run out of a terminal status |
| ResultEvents.SupersededIsDiscarded | runinator-database/src/operations.rs:2670-2677 | an event with 0 < attempt < the row's attempt changes no node run |
| ResultEvents.LastEndDecides | runinator-database/src/operations.rs:2662-2691 | the last terminal event decides status, finish time, and output and message when present |
| ResultEvents.OneEndDecidesEveryOrder | runinator-database/src/operations.rs:2662-2691 | with exactly one terminal event every order ends the node run that way |
| ResultEvents.OrderIrrelevantIffEndsAgree | runinator-database/src/operations.rs:2662-2691 | the final status is independent of the order exactly when all terminal events agree |
| EffectivelyOnce.ResultsAreEffectivelyOnce | runinator-engine/src/result_consumer.rs:89-217 | over every schedule of the result channel and its consumers each accepted event is still held, applied or dead-lettered, or some give-up on it failed to record; and the tables are those of applying first occurrences only, with exactly the artifacts and chunks these report |
| ResultPipe.RunIsSound | runinator-engine/src/result_consumer.rs:89-217 | in every reachable state the channel invariant holds and the tables are the fold of all the applies, each of an accepted event |
| EffectivelyOnce.RunIsExplained | runinator-engine/src/audit.rs:14-38 | in every reachable state an event that left the channel was applied, dead-lettered, or given up on without a record |
| ResultLoss.MoveLosesIff | runinator-engine/src/result_consumer.rs:89-217 | over every run, a move loses an event if and only if it acks an in-flight delivery of it while the event is neither applied nor dead-lettered |
| ResultLoss.OnlyAcksEnd | runinator-engine/src/result_consumer.rs:136-217 | an event leaves the channel by such an ack and by nothing else |
| ResultLoss.LostIffAckedUnaccounted | runinator-engine/src/result_consumer.rs:89-217 | an accepted event is lost if and only if a delivery of it was acked in flight, no delivery of that event was ever applied, and no give-up on it stored a dead letter |
| ResultLoss.LostWasGivenUp | runinator-engine/src/audit.rs:14-38 | an event is lost only after a give-up on it whose dead letter could not be stored |
| ResultLoss.OutageLosesAnEvent | runinator-engine/src/audit.rs:30-38 | a run in which the dead letter cannot be written, the event is acked and nothing of it remains |
| ResultDrives.AckedIsDrivenOrGivenUp | runinator-engine/src/repository/node_runs.rs:120-146 | an acked terminal event has had its drive enqueued, for a repeat too, or was given up on |
| ResultDrives.DrivenIsApplied | runinator-engine/src/repository/node_runs.rs:124-143 | a drive is enqueued only after its event is recorded as applied |
| ResultDrives.HandlingEnds | runinator-engine/src/result_consumer.rs:146-166 | from any reachable state a consumer that holds a delivery can apply it, enqueue the drive of a terminal event, and ack it: it is then acked, its event applied, and driven if it was to be |
| ResultDrives.GivingUpEnds | runinator-engine/src/result_consumer.rs:181-210 | a consumer may give up any delivery it holds and ack it; nothing is applied or driven, and a dead letter is kept exactly if it was written |
| ResultDrives.MoveLeavesUndrivenIff | runinator-engine/src/repository/node_runs.rs:120-146 | a move leaves a terminal event undriven if and only if it acks an in-flight delivery of it before any drive of it was enqueued |
| ResultDrives.UndrivenIffAcked | runinator-engine/src/repository/node_runs.rs:120-146 | over a run a terminal event is left undriven if and only if it was acked in flight and no delivery of it was ever driven on |
| ResultDrives.GiveUpStrandsARun | runinator-engine/src/result_consumer.rs:160-205 | a run in which a terminal event is applied, its drive never enqueued, and the recorded give-up acks it |
| Replays.RepeatsCanBeDeleted | runinator-database/src/operations.rs:2634-2661 | with updates, chunk appends and executor steps interleaved, deleting every repeated event from a run leaves the final tables unchanged |
| Replays.WithoutRepeatsIsOnce | runinator-database/src/operations.rs:2640-2661 | what is left holds each event once, loses none and keeps all other steps |
| Replays.TablesHoldTheEvents | runinator-database/src/operations.rs:2634-2732 | after any run the artifact table is the artifact events, each once, in the order they first came, and the chunk table, numbers apart, the chunk events and direct appends |
| Triggers.TriggerStore.ClaimDueFirings | runinator-database/src/operations.rs:1750-1900 | selected triggers were enabled, cron and due; the claim commits exactly if none of them fails; then each stores its schedule's next occurrence after now, or the end of its blackout, and one that was set and out of blackout has fired once with its run; nothing else changes; otherwise nothing at all does |
| Triggers.TriggerStore.TryRecordTriggerFiring | runinator-database/src/operations.rs:1902-1926 | true exactly for the first to record a name, which is stored without a run |
| Triggers.SelectsInColumns | runinator-database/src/operations.rs:1757-1765 | the select returns enabled cron triggers without a next execution or past it, by that (none as 0) and then id |
| Triggers.LeftOutIsLaterDue | runinator-database/src/operations.rs:1757-1765 | any other such trigger that is not skipped comes after all of them, and they are max(limit, 1) |
| Triggers.BatchInColumns | runinator-database/src/operations.rs:1750-1900 | a batch commits exactly if no trigger in it fails, and then moves each as `Moves` says, column by column, and leaves all else |
| TriggerRuns.BatchCommitsIff | runinator-database/src/operations.rs:1750-1900 | a batch commits exactly when no selected trigger raises an error |
| TriggerRuns.BatchAdvances | runinator-database/src/operations.rs:1750-1900 | in an exact state a committed batch moves every selected trigger on, to its schedule's next occurrence or the end of its blackout, fires it once if it was set and out of blackout, and touches no other |
| TriggerRuns.CronFiresExactlyOnce | runinator-database/src/operations.rs:1750-1900 | over every run of claims firings and runs correspond one to one, none falls in the inclusive blackout, and `next_execution` lies beyond every fired key |
| TriggerRuns.RunIsExact | runinator-database/src/operations.rs:1750-1926 | claims and chained recordings keep firings, runs and `next_execution` consistent |
| TriggerRuns.ClaimNeverSticks | runinator-database/src/operations.rs:1750-1900 | in a reachable state the duplicate-key branch is never taken, a processable batch advances, any other claim changes nothing |
| TriggerRuns.FirstIsSelected | runinator-database/src/operations.rs:1757-1765 | the first due trigger is in every selection that skips nothing |
| TriggerRuns.PoisonedTriggerStopsAll | runinator-database/src/common.rs:49-58 | an unset trigger with a rejected schedule, sorted first, keeps every claim from committing |
| Dispatches.FirstWriterWins | runinator-database/src/operations.rs:4266-4312 | until a dispatch is published nothing replaces its command or adds another row for its key |
| DispatchStore.DispatchTable.EnqueueActionDispatch | runinator-database/src/operations.rs:4266-4312 | a stored key changes nothing and its row comes back; a new one gets a row with the command, no attempts, unpublished and free |
| DispatchStore.DispatchTable.ClaimPendingActionDispatches | runinator-database/src/operations.rs:4331-4397 | granted dispatches were unpublished and claimable by the claimant, other such ones come after them by (updated_at, id) behind a full batch; granted ones get the pair and move to the back of the order; what comes back on each dialect |
| DispatchStore.DispatchTable.MarkActionDispatchPublished | runinator-database/src/operations.rs:4399-4412 | whoever calls, the dispatch is published now and free, and no other changes |
| DispatchStore.DispatchTable.MarkActionDispatchFailed | runinator-database/src/operations.rs:4414-4428 | whoever calls, the dispatch has one more attempt and is free, and no other changes |
| DispatchStore.PickInColumns | runinator-database/src/operations.rs:4346-4362 | a claim takes at most max(limit, 1) unpublished dispatches whose claim is unset, ended or the claimant's own |
| DispatchStore.PickLeftOut | runinator-database/src/operations.rs:4346-4362 | any other such dispatch comes after each granted one by (updated_at, id), and the batch is full |
| DispatchClaims.ReadBackIsReturning | runinator-database/src/operations.rs:4331-4397 | the read-back condition for dispatches right after the update, and that a published one is never read back |
| DispatchClaims.ReadBackLater | runinator-database/src/operations.rs:4331-4428 | with any steps in between, a dispatch is read back exactly if it was granted or carried the pair before and nothing published, failed, re-granted or archived it since, or a later claim of the pair granted it and nothing since |
| DispatchClaims.HoldersExclude | runinator-database/src/operations.rs:4331-4428 | as long as nobody reports a failure of a dispatch somebody else holds, two schedulers never both hold an unexpired claim of an unpublished dispatch |
| DispatchClaims.FreeingAnotherBreaksExclusion | runinator-database/src/operations.rs:4414-4428 | the first such failure makes the dispatch claimable in the same second by anybody but its holder, and such a claim leaves two holders |
| DispatchClaims.AStrangerCanFail | runinator-database/src/operations.rs:4414-4428 | a run in which a scheduler fails a dispatch another one holds |
| ArchiveRuns.StepKeeps | runinator-archiver/src/main.rs:234-286 | every step of every archiver, and every insert or update, keeps the archive invariant |
| ArchiveRuns.RunKeeps | runinator-archiver/src/main.rs:234-286 | the archive invariant holds in every reachable state |
| ArchiveRuns.NoRowIsLost | runinator-archiver/src/main.rs:234-286 | with any number of archivers, both forms of the claim, crashes and partial failures every row ever stored is in its table or a renamed file, and an archived mark never points at a stored row |
| ArchiveRuns.CompletedMarksStayArchived | runinator-archiver/src/main.rs:281-286 | with any other archivers interleaved, every mark an archiver set out to complete is archived when it finishes, stays archived, and its row is gone from its table for good |
| ArchiveRuns.OneMarkPerRow | runinator-database/src/operations.rs:425-458 | in every reachable state two marks never name the same row |
| ArchiveVersions.LastIsFiledIffFetchedLast | runinator-archiver/src/main.rs:253-284 | in every reachable state the files hold the last version of a row if and only if a filed copy was fetched after the row's last change |
| ArchiveVersions.EverythingWasFetched | runinator-archiver/src/main.rs:253-284 | every line in a file and every copy in an archiver's hands was read by an earlier fetch |
| ArchiveVersions.LastVersionIsFiled | runinator-archiver/src/main.rs:324-361 | a row whose content is not changed while archivers can see it is filed with its last content in every file that has it |
| ArchiveVersions.StaleCopyIsFiled | runinator-archiver/src/main.rs:253-284 | a run in which a later change is lost with the row |
| ArchiveClaims.MarkReadBackIsReturning | runinator-database/src/operations.rs:468-500 | the read-back condition for archive marks, right after the update |
| ArchiveClaims.ReadBackIsOpen | runinator-database/src/operations.rs:468-500 | in every reachable state all marks a read-back can return are open to the claimant |
| ArchiveClaims.MarksReadBackLater | runinator-database/src/operations.rs:460-521 | with any steps in between, a mark is read back exactly if it was picked or carried the pair before and nothing completed, failed or re-granted it since, or a later claim of the pair picked it and nothing since |
| ArchiveClaims.AnswerIsWhatWasLeft | runinator-database/src/operations.rs:468-500 | the marks an archiver goes on with on MySQL are exactly those, however many steps of others lie between its update and its read-back |
| ArchiveExclusion.HoldersExclude | runinator-database/src/operations.rs:460-592 | on a nondecreasing clock, as long as no archiver fails a mark somebody else holds, two archivers never both hold an unexpired claim of an unarchived mark; completing another's mark is harmless |
| ArchiveExclusion.FreeingAnotherBreaksExclusion | runinator-database/src/operations.rs:571-592 | the first such failure opens the mark in the same second to anybody but its holder, who still believes in its claim, and a claim then leaves two holders |
| ArchiveExclusion.LateFailureBreaksAClaim | runinator-database/src/operations.rs:571-592 | a run in which two archivers both hold an unexpired claim of one mark |
| ArchivePass.FetchedRows | runinator-database/src/operations.rs:523-534 | exactly the stored rows behind the claimed marks, of ready nodes, dispatches and notifications the closed ones only, with the row's content and the mark's creation time |
| ArchivePass.FetchedInOrder | runinator-database/src/operations.rs:523-534 | rows are fetched in the order of their marks |
| ArchivePass.InsertAllCovers | runinator-database/src/operations.rs:425-458 | every candidate's row is marked afterwards |
| ArchivePass.InsertAllKeeps | runinator-database/src/operations.rs:425-458 | the inserts leave every mark that was there as it was |
| ArchivePass.NewMarksAreCandidates | runinator-database/src/operations.rs:425-458 | a new mark is a candidate's, with its times, open and unclaimed |
| ArchivePass.GroupMembers | runinator-archiver/src/main.rs:325-331 | a group holds exactly the rows of its table created on its day of 86 400 s, as often as they were fetched |
| ArchivePass.GroupsPartition | runinator-archiver/src/main.rs:324-361 | the files of a pass hold every fetched row exactly as often as it was fetched |
| ArchivePass.PickIsDetermined | runinator-database/src/operations.rs:468-500 | in every reachable state the claim's subselect, ordered by day, table and key and cut off at the limit, has one answer |
| ArchivePass.PickedAreOpen | runinator-database/src/operations.rs:468-500 | the claim picks at most max(limit, 1) marks, each unarchived and free, expired or the claimant's own |
| ArchivePass.MarkLeftOut | runinator-database/src/operations.rs:468-500 | any other such mark comes after each picked one by day, table name and key, and the batch is full |
| ArchivePass.RanksFollowNames | runinator-database/src/archive.rs:33-45 | the ranks that stand for table names in that order follow the names |
| ArchivePass.OutcomesInColumns | runinator-archiver/src/main.rs:248-286 | when each branch of a pass is taken and the marks, tables and files it leaves, outcome by outcome |
| ArchivePass.PassShrinksOpenMarks | runinator-archiver/src/main.rs:234-286 | a successful pass that holds open marks, is no dry run and runs alone strictly reduces the open marks |
| ArchivePass.DeletedRowsAreFiled | runinator-archiver/src/main.rs:268-284 | a pass run alone has filed every row it deletes with the content it had |
| Archiver.GroupRows | runinator-archiver/src/main.rs:325-331 | one group per day and table that occurs, each in row order |
| Archiver.ArchiveStore.MarkCandidates | runinator-database/src/operations.rs:425-458 | the insert-ignore loop: one open mark per new (table, key), existing marks unchanged, up to a failing insert |
| Archiver.ArchiveStore.MarkAll | runinator-archiver/src/main.rs:288-322 | the marks of all tables with a retention, in policy order, up to a failing insert |
| Archiver.ArchiveStore.InsertIgnore | runinator-database/src/operations.rs:437-456 | a marked key is left alone, any other gets one open mark with the candidate's times |
| Archiver.ArchiveStore.ClaimBatch | runinator-database/src/operations.rs:460-521 | the picked marks were unarchived and claimable; they get pair and attempt, every other mark is unchanged; on MySQL whatever carries the pair is returned, or a failing read-back leaves the marks held |
| Archiver.ArchiveStore.FetchRows | runinator-database/src/operations.rs:523-534 | the visible rows in mark order, or a failure that leads to failing the batch |
| Archiver.ArchiveStore.DeleteRows | runinator-database/src/operations.rs:536-551 | exactly the fetched rows' keys leave the tables, or those before the failing statement |
| Archiver.ArchiveStore.CompleteMarks | runinator-database/src/operations.rs:553-569 | exactly these marks, or those before the failing statement, become archived and free |
| Archiver.ArchiveStore.FailMarks | runinator-database/src/operations.rs:571-592 | exactly the unarchived ones among these marks, or those before the failing statement, become free |
| Archiver.ArchiveStore.WriteFiles | runinator-archiver/src/main.rs:324-361 | one file per group, all of them on success, those before the failing one otherwise |
| Archiver.ArchiveStore.WriteGroups | runinator-archiver/src/main.rs:332-359 | the files before a failing one are in place, the others are not |
| Archiver.ArchiveStore.WriteThenDelete | runinator-archiver/src/main.rs:268-284 | rows leave the tables only when every file is in place |
| Archiver.ArchiveStore.ArchiveClaimed | runinator-archiver/src/main.rs:248-286 | the pass from the fetch on: branch taken and state left |
| Archiver.ArchiveStore.CompleteEmpty | runinator-archiver/src/main.rs:261-264 | marks without a row left are completed and no table changes |
| Archiver.ArchiveStore.RunOnce | runinator-archiver/src/main.rs:234-286 | the whole pass on every dialect, with a failure at any statement or file: which branch is taken, and the marks, tables and files it leaves, as a run of the archive steps |
| Render.Render | runinator-database/src/queries.rs:20-38 | the character loop computes the rendering for Postgres and copies otherwise |
| Render.RenderKeepsMeaning | runinator-database/src/queries.rs:14-38 | ordinal reading of the rendering equals positional reading of the template exactly when no `?` or `$` precedes a digit |
| Render.OrdinalsInOrder | runinator-database/src/queries.rs:16-19 | a clean template gets the ordinals 1 to k in order |
| Render.RoundTrip | runinator-database/src/queries.rs:20-38 | un-rendering returns the template exactly when it is clean |
| Render.SubstitutionAgrees | runinator-database/src/queries.rs:16-19 | putting bind i for `$i` equals putting the binds for the `?` in turn |
| Chunks.SequencesAreContiguous | runinator-database/src/operations.rs:2410-2458 | in every reachable state a node run's chunks are numbered 1 to n |
| Chunks.PageIsNextStretch | runinator-database/src/operations.rs:2460-2479 | a page is the next stretch after the cursor, as long as the clamped limit allows, and empty exactly when the reader is caught up |
| Chunks.PagingIsComplete | runinator-database/src/operations.rs:2460-2479 | whatever is appended between reads, a reader has every chunk up to its cursor, once and in order, and an empty page means it has all |
| Chunks.RacingAppendsLoseAChunk | runinator-database/src/operations.rs:2415-2419 | in a table left by two racing appends, a reader whose page, of any length, holds exactly one of the two chunks finds nothing after it |
| ChunkRaces.NumberedIffNobodyInterferes | runinator-database/src/operations.rs:2410-2458 | with read and insert as separate steps of any number of appenders, a node run's chunks are numbered 1 to n if and only if no insert into it came between an appender's read and its own insert |
| ChunkRaces.RaceIsReachable | runinator-database/src/operations.rs:2410-2458 | from every reachable state two appenders can race to that table |
| ChunkPaging.PagingIsCompleteIffNobodyInterferes | runinator-database/src/operations.rs:2410-2479 | over every run of appends with read and insert apart, all readers of a node run's chunks are complete if and only if no insert came between an appender's read and its own insert |
| ChunkPaging.ReadersGoOn | runinator-database/src/operations.rs:2460-2479 | a reader never goes back: later pages hold only numbers beyond its cursor |
| ChunkPaging.RepeatedNumberIsLost | runinator-database/src/operations.rs:2410-2479 | a chunk inserted with a number at or below the cursor of a reader that had everything is lost to it for good |
| ChunkPaging.FirstInterferenceIsLost | runinator-database/src/operations.rs:2410-2479 | the chunk of the first append that is interfered with is lost for good to every reader that had all chunks before it |

## Left out

- DefaultLoops.FifoBackend.ReceiveFor: the source loops until a match arrives; a budget of receives bounds the loop, and the contract holds for every budget. An empty queue, where the source waits, ends the call.
- DefaultLoops.FifoBackend.ReceiveControlFor: bounded by a budget in the same way; the clock is read once per receive.
- InMemory.LeasedChannel.TryReceive: one locked pass; waiting and retrying is the subject of `Wakeup` and `WakeupOne`, not of the class.
- WorkStore.WorkTables.ClaimReadyNodes: the subselect's answer is a parameter fixed by `ClaimPick`; the database's own row order is not computed in a loop the source does not have. The same holds for ClaimWorkflowRuns, for ClaimBatch and for the trigger selection. These methods run both MySQL statements back to back; `ReadBacks` is about what happens in between.
- WorkStore.WorkTables.ClaimReadyNode: the same, back to back.
- WorkStore.WorkTables.ClaimWorkflowRuns: the same, back to back.
- Archiver.ArchiveStore.RunOnce: the candidate query is a parameter limited to visible rows; retention cutoffs and its batch limit only narrow it. A query that fails leaves what the statement after it would leave by failing. Files of a pass are written in any order of groups. The two MySQL claim statements run back to back here; with others in between see `ArchiveClaims.AnswerIsWhatWasLeft`.
- ArchivePass.PassShrinksOpenMarks: a pass on its own; with others interleaved, `ArchiveRuns.CompletedMarksStayArchived` holds instead.
- ArchiveVersions.LastVersionIsFiled: a sufficient condition a caller can meet; the exact one is `LastIsFiledIffFetchedLast`.
- ReadyRuns.AnnounceBound: as AnnounceReadyNodes, only for the dialects with `UPDATE ... RETURNING`; MySQL's announce path reads back by a marker that names no owner and accepts bounded duplication.
- Chunks.SequencesAreContiguous: appends inside the result-event transaction, which are atomic steps; `ChunkRaces` takes the append of `append_workflow_node_run_chunk` apart. The archiver's deletion of old chunks is outside both.
- EffectivelyOnce.ResultsAreEffectivelyOnce: a consumer that acks what it has neither dealt with nor given up on is not modelled, since the result consumer never does.
- ResultDrives.AckedIsDrivenOrGivenUp: that an enqueued drive leaves exactly one due row is `ReadyRuns.EnqueueLeavesOneDue`; the two step systems are not composed.
- RunStatus.ArchivedWasOver: of the dependents the candidate query looks for, the model has only the ready nodes; the query stands for the moment of the mark.
- Foreign keys, cascading deletes, operator edits of triggers and of blackout windows, and deletions of archived tables by anything but the archiver.
- Isolation anomalies below statement or transaction atomicity, and lost connections after a commit.
- The width of the placeholder counter and of SQL integers: all numbers are unbounded.
- The lossy event fan-out channel, the other broker backends, HTTP and CLI plumbing, the reducer, the workers and the workflow compiler.
- Pipeline triggers and pipeline runs, whose statements mirror the workflow ones; run chunks, whose two statements mirror those of node-run chunks.
- JSON encoding, row mappers, gzip and file names; a row's content is an opaque string.
- Authentication, secrets, settings, gates, catalog and audit CRUD: thin column copying.
