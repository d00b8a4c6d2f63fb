/**
 The durable work queue: workflow runs, their ready nodes and the event log behind them, as tables
 changed by one SQL statement or one transaction at a time (runinator-database/src/operations.rs).
 Any number of schedulers interleave; one that stops between two steps has crashed.
 Times are whole seconds; row ids count insertions.
 */
module Orchestration {
  import opened Wrappers
  import opened Leases
  import opened Selection

  datatype WorkflowStatus =
    | Queued | Running | Paused | DebugPaused | Waiting | ApprovalRequired | InputRequired | Blocked
    | Succeeded | Failed | TimedOut | Canceled

  predicate IsTerminal(s: WorkflowStatus) {
    s.Succeeded? || s.Failed? || s.TimedOut? || s.Canceled?
  }

  datatype ReadyNode = ReadyNode(
    sourceEvent: nat,
    run: nat,
    node: string,
    status: WorkflowStatus,
    readyAt: int,
    attempts: nat,
    lease: Lease,
    completedAt: Option<int>,
    createdAt: int,
    updatedAt: int,
    announcedUntil: Option<int>)

  datatype WorkflowRun = WorkflowRun(
    status: WorkflowStatus,
    createdAt: int,
    startedAt: Option<int>,
    finishedAt: Option<int>,
    lease: Lease)

  datatype Db = Db(
    ready: map<nat, ReadyNode>,
    runs: map<nat, WorkflowRun>,
    events: set<nat>,
    marked: set<nat>,    // workflow runs that have an archive mark
    nextReady: nat,
    nextRun: nat)

  const EMPTY := Db(map[], map[], {}, {}, 0, 0)

  // ---- ready nodes ----

  predicate Pending(r: ReadyNode) {
    r.completedAt.None?
  }

  predicate Same(r: ReadyNode, run: nat, node: string) {
    r.run == run && r.node == node
  }

  function Completed(r: ReadyNode, now: int): ReadyNode {
    r.(completedAt := Some(now), status := Succeeded, updatedAt := now)
  }

  /** `WHERE workflow_run_id = ? AND node_id = ? AND completed_at IS NULL AND ready_at <= ?`. */
  predicate Superseded(r: ReadyNode, run: nat, node: string, now: int) {
    Same(r, run, node) && Pending(r) && r.readyAt <= now
  }

  function SettleDue(ready: map<nat, ReadyNode>, run: nat, node: string, now: int): map<nat, ReadyNode> {
    map id | id in ready ::
      if Superseded(ready[id], run, node, now) then Completed(ready[id], now) else ready[id]
  }

  function NewReadyNode(event: nat, run: nat, node: string, readyAt: int, now: int): ReadyNode {
    ReadyNode(event, run, node, Queued, readyAt, 0, FREE, None, now, now, None)
  }

  /** `INSERT OR IGNORE` against the unique key (source_event_id, workflow_run_id, node_id). */
  predicate Conflicts(ready: map<nat, ReadyNode>, event: nat, run: nat, node: string) {
    exists id <- ready :: ready[id].sourceEvent == event && Same(ready[id], run, node)
  }

  /** `enqueue_ready_node`, one transaction; the result is the id of the inserted row. */
  function Enqueue(db: Db, event: nat, run: nat, node: string, readyAt: int, now: int): (Db, Option<nat>) {
    if event in db.events then (db, None)
    else
      var settled := db.(events := db.events + {event}, ready := SettleDue(db.ready, run, node, now));
      if Conflicts(settled.ready, event, run, node) then (settled, None)
      else
        (settled.(ready := settled.ready[db.nextReady := NewReadyNode(event, run, node, readyAt, now)],
                  nextReady := db.nextReady + 1),
         Some(db.nextReady))
  }

  function ReadyLeases(ready: map<nat, ReadyNode>): map<nat, Lease> {
    map id | id in ready :: ready[id].lease
  }

  predicate Eligible(r: ReadyNode, who: Owner, now: int) {
    Pending(r) && r.readyAt <= now && Claimable(r.lease, who, now)
  }

  function ClaimPool(ready: map<nat, ReadyNode>, who: Owner, now: int): set<nat> {
    set id | id in ready && Eligible(ready[id], who, now)
  }

  /** `ORDER BY ready_at, id`. */
  function ReadyOrder(ready: map<nat, ReadyNode>): Keys {
    map id | id in ready :: SortKey(ready[id].readyAt, 0, id)
  }

  function AtLeastOne(limit: int): nat {
    if limit < 1 then 1 else limit
  }

  /** The rows a batch claim picks; `skipped` are the ones `SKIP LOCKED` passes over. */
  ghost function ClaimPick(
      ready: map<nat, ReadyNode>, who: Owner, now: int, limit: int, skipped: set<nat>): set<nat>
  {
    First(ClaimPool(ready, who, now) - skipped, ReadyOrder(ready), AtLeastOne(limit))
  }

  function Claimed(r: ReadyNode, who: Owner, now: int, until: int): ReadyNode {
    r.(lease := Lease(Some(who), Some(until)), attempts := r.attempts + 1, status := Running, updatedAt := now)
  }

  function ClaimRows(ready: map<nat, ReadyNode>, picked: set<nat>, who: Owner, now: int, until: int)
    : map<nat, ReadyNode>
  {
    map id | id in ready :: if id in picked then Claimed(ready[id], who, now, until) else ready[id]
  }

  /** `claim_ready_node`: by id, due or not. */
  function ClaimOnePick(ready: map<nat, ReadyNode>, id: nat, who: Owner, now: int): set<nat> {
    if id in ready && Pending(ready[id]) && Claimable(ready[id].lease, who, now) then {id} else {}
  }

  /** `complete_ready_node`: the holder may complete a row, even one completed before. */
  function CompleteRow(ready: map<nat, ReadyNode>, id: nat, who: Owner, now: int): map<nat, ReadyNode> {
    if id in ready && ready[id].lease.owner == Some(who) then ready[id := Completed(ready[id], now)] else ready
  }

  function ReleaseRow(ready: map<nat, ReadyNode>, id: nat, who: Owner, now: int): map<nat, ReadyNode> {
    if id in ready && ready[id].lease.owner == Some(who) && Pending(ready[id])
    then ready[id := ready[id].(lease := FREE, status := Queued, updatedAt := now)]
    else ready
  }

  predicate Announceable(r: ReadyNode, now: int) {
    && Pending(r)
    && (r.lease.until.None? || r.lease.until.value <= now)
    && (r.announcedUntil.None? || r.announcedUntil.value <= now)
  }

  function AnnouncePool(ready: map<nat, ReadyNode>, now: int): set<nat> {
    set id | id in ready && Announceable(ready[id], now)
  }

  ghost function AnnouncePick(ready: map<nat, ReadyNode>, now: int, limit: int, skipped: set<nat>): set<nat> {
    First(AnnouncePool(ready, now) - skipped, ReadyOrder(ready), AtLeastOne(limit))
  }

  /** The announce lease runs past `ready_at`, on the dialects with `UPDATE ... RETURNING`. */
  function Announced(r: ReadyNode, now: int, lease: int): ReadyNode {
    r.(announcedUntil := Some((if r.readyAt > now then r.readyAt else now) + AtLeastOne(lease)), updatedAt := now)
  }

  function AnnounceRows(ready: map<nat, ReadyNode>, picked: set<nat>, now: int, lease: int): map<nat, ReadyNode> {
    map id | id in ready :: if id in picked then Announced(ready[id], now, lease) else ready[id]
  }

  /** The rows `settle_terminal_run_ready_nodes` may take: pending ones of terminal runs. */
  function Doomed(db: Db): set<nat> {
    set id | id in db.ready && Pending(db.ready[id])
             && db.ready[id].run in db.runs && IsTerminal(db.runs[db.ready[id].run].status)
  }

  function PendingOf(db: Db, run: nat): set<nat> {
    set id | id in db.ready && db.ready[id].run == run && Pending(db.ready[id])
  }

  function CompleteRows(ready: map<nat, ReadyNode>, picked: set<nat>, now: int): map<nat, ReadyNode> {
    map id | id in ready :: if id in picked then Completed(ready[id], now) else ready[id]
  }

  // ---- workflow runs ----

  /** `update_workflow_run_status`, first statement: no guard on the stored status. */
  function WithStatus(r: WorkflowRun, status: WorkflowStatus, now: int): WorkflowRun {
    r.(status := status,
       startedAt := if status.Running? && r.startedAt.None? then Some(now) else r.startedAt,
       finishedAt := if IsTerminal(status) then Some(now) else r.finishedAt)
  }

  function RunLeases(runs: map<nat, WorkflowRun>): map<nat, Lease> {
    map id | id in runs :: runs[id].lease
  }

  function RunPool(runs: map<nat, WorkflowRun>, statuses: set<WorkflowStatus>, who: Owner, now: int): set<nat> {
    set id | id in runs && runs[id].status in statuses && Claimable(runs[id].lease, who, now)
  }

  /** `ORDER BY created_at, id`. */
  function RunOrder(runs: map<nat, WorkflowRun>): Keys {
    map id | id in runs :: SortKey(runs[id].createdAt, 0, id)
  }

  /** `claim_workflow_runs_for_scheduler`; an empty status list claims nothing. */
  ghost function RunPick(
      runs: map<nat, WorkflowRun>, statuses: set<WorkflowStatus>, who: Owner, now: int, limit: int, skipped: set<nat>)
    : set<nat>
  {
    First(RunPool(runs, statuses, who, now) - skipped, RunOrder(runs), AtLeastOne(limit))
  }

  function ClaimRunRows(runs: map<nat, WorkflowRun>, picked: set<nat>, who: Owner, until: int): map<nat, WorkflowRun> {
    map id | id in runs :: if id in picked then runs[id].(lease := Lease(Some(who), Some(until))) else runs[id]
  }

  function RenewRun(runs: map<nat, WorkflowRun>, id: nat, who: Owner, until: int): map<nat, WorkflowRun> {
    if id in runs && runs[id].lease.owner == Some(who)
    then runs[id := runs[id].(lease := runs[id].lease.(until := Some(until)))]
    else runs
  }

  function ReleaseRun(runs: map<nat, WorkflowRun>, id: nat, who: Owner): map<nat, WorkflowRun> {
    if id in runs && runs[id].lease.owner == Some(who) then runs[id := runs[id].(lease := FREE)] else runs
  }

  // ---- steps ----

  datatype Action =
    | CreateRun
    | SetRunStatus(run: nat, status: WorkflowStatus)
    | SettleRun(run: nat)                            // second statement of a terminal status update
    | SettleTerminal(limit: int, chosen: set<nat>)   // LIMIT without ORDER BY: any rows that fit
    | ClaimRuns(who: Owner, statuses: set<WorkflowStatus>, until: int, limit: int, skipped: set<nat>)
    | RenewRunClaim(run: nat, who: Owner, until: int)
    | ReleaseRunClaim(run: nat, who: Owner)
    | AppendEvent(event: nat)
    | EnqueueNode(event: nat, run: nat, node: string, readyAt: int)
    | ClaimNodes(who: Owner, until: int, limit: int, skipped: set<nat>)
    | ClaimNode(id: nat, who: Owner, until: int)
    | CompleteNode(id: nat, who: Owner)
    | ReleaseNode(id: nat, who: Owner)
    | Announce(lease: int, limit: int, skipped: set<nat>)
    | ArchiveNode(id: nat)                           // the archiver deletes a completed row
    | MarkRun(run: nat)                              // the archiver marks a finished run without ready nodes
    | ArchiveRun(run: nat)                           // it deletes a marked run, whatever its status by then

  datatype Step = At(now: int, action: Action)

  predicate Enabled(db: Db, step: Step) {
    match step.action
    case SettleTerminal(limit, chosen) =>
      chosen <= Doomed(db) && |chosen| == Min(AtLeastOne(limit), |Doomed(db)|)
    case ArchiveNode(id) => id in db.ready && !Pending(db.ready[id])
    case MarkRun(run) =>
      && run in db.runs && IsTerminal(db.runs[run].status)
      && forall id <- db.ready :: db.ready[id].run != run
    case ArchiveRun(run) => run in db.marked
    case _ => true
  }

  /** The ready nodes a step grants, and the runs a step grants. */
  ghost function GrantedNodes(db: Db, step: Step): set<nat> {
    match step.action
    case ClaimNodes(who, until, limit, skipped) => ClaimPick(db.ready, who, step.now, limit, skipped)
    case ClaimNode(id, who, until) => ClaimOnePick(db.ready, id, who, step.now)
    case _ => {}
  }

  ghost function Next(db: Db, step: Step): Db {
    var now := step.now;
    match step.action
    case CreateRun =>
      db.(runs := db.runs[db.nextRun := WorkflowRun(Queued, now, None, None, FREE)], nextRun := db.nextRun + 1)
    case SetRunStatus(run, status) =>
      if run in db.runs then db.(runs := db.runs[run := WithStatus(db.runs[run], status, now)]) else db
    case SettleRun(run) =>
      db.(ready := CompleteRows(db.ready, PendingOf(db, run), now))
    case SettleTerminal(_, chosen) => db.(ready := CompleteRows(db.ready, chosen, now))
    case ClaimRuns(who, statuses, until, limit, skipped) =>
      db.(runs := ClaimRunRows(db.runs, RunPick(db.runs, statuses, who, now, limit, skipped), who, until))
    case RenewRunClaim(run, who, until) => db.(runs := RenewRun(db.runs, run, who, until))
    case ReleaseRunClaim(run, who) => db.(runs := ReleaseRun(db.runs, run, who))
    case AppendEvent(event) => db.(events := db.events + {event})
    case EnqueueNode(event, run, node, readyAt) => Enqueue(db, event, run, node, readyAt, now).0
    case ClaimNodes(who, until, _, _) => db.(ready := ClaimRows(db.ready, GrantedNodes(db, step), who, now, until))
    case ClaimNode(_, who, until) => db.(ready := ClaimRows(db.ready, GrantedNodes(db, step), who, now, until))
    case CompleteNode(id, who) => db.(ready := CompleteRow(db.ready, id, who, now))
    case ReleaseNode(id, who) => db.(ready := ReleaseRow(db.ready, id, who, now))
    case Announce(lease, limit, skipped) =>
      db.(ready := AnnounceRows(db.ready, AnnouncePick(db.ready, now, limit, skipped), now, lease))
    case ArchiveNode(id) => db.(ready := db.ready - {id})
    case MarkRun(run) => db.(marked := db.marked + {run})
    case ArchiveRun(run) => db.(runs := db.runs - {run})
  }

  ghost predicate Run(states: seq<Db>, steps: seq<Step>) {
    && |states| == |steps| + 1 && states[0] == EMPTY
    && forall k :: 0 <= k < |steps| ==> Enabled(states[k], steps[k]) && states[k + 1] == Next(states[k], steps[k])
  }
}
