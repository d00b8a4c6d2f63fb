/**
 Node runs and what workers report about them: status, chunk and artifact events applied at most
 once each, and the executor lease (runinator-database/src/operations.rs). Times are whole seconds.
 */
module NodeRuns {
  import opened Wrappers
  import opened Orchestration

  datatype NodeRun = NodeRun(
    status: WorkflowStatus,
    attempt: int,
    output: Option<string>,
    message: Option<string>,
    startedAt: Option<int>,
    finishedAt: Option<int>,
    executor: Option<string>,
    claimedAt: Option<int>,
    releasedAt: Option<int>,
    lastExecutor: Option<string>)

  datatype Chunk = Chunk(nodeRun: nat, sequence: int, stream: string, content: string, createdAt: int)
  datatype Artifact = Artifact(nodeRun: nat, name: string, uri: string, createdAt: int)

  datatype NodeDb = NodeDb(
    nodeRuns: map<nat, NodeRun>,
    applied: set<nat>,          // workflow_result_events
    chunks: seq<Chunk>,         // in insertion order
    artifacts: seq<Artifact>)

  datatype Kind =
    | Status(status: WorkflowStatus, output: Option<string>, message: Option<string>)
    | NewChunk(stream: string, content: string)
    | NewArtifact(name: string, uri: string)

  datatype ResultEvent = ResultEvent(id: nat, nodeRun: nat, attempt: int, kind: Kind, timestamp: int)

  /** The `WHERE` guards of the status update: no way back from terminal, no superseded attempt. */
  predicate Admitted(row: NodeRun, e: ResultEvent)
    requires e.kind.Status?
  {
    && !(IsTerminal(row.status) && !IsTerminal(e.kind.status))
    && (e.attempt <= 0 || row.attempt <= e.attempt)
  }

  /** The timestamp columns both status updates share. */
  function Stamped(row: NodeRun, status: WorkflowStatus, now: int): NodeRun {
    row.(status := status,
         startedAt := if status.Running? then Some(now) else if status.Queued? then None else row.startedAt,
         finishedAt := if IsTerminal(status) then Some(now) else if status.Queued? then None else row.finishedAt)
  }

  function Reported(row: NodeRun, kind: Kind, now: int): NodeRun
    requires kind.Status?
  {
    Stamped(row, kind.status, now)
      .(output := Coalesce(kind.output, row.output), message := Coalesce(kind.message, row.message))
  }

  /** `SELECT COALESCE(MAX(sequence), 0)` over one node run's chunks. */
  function MaxSequence(chunks: seq<Chunk>, nodeRun: nat): int {
    if chunks == [] then 0
    else
      var m := MaxSequence(chunks[..|chunks| - 1], nodeRun);
      var last := chunks[|chunks| - 1];
      if last.nodeRun == nodeRun then Max(m, last.sequence) else m
  }

  function Append(chunks: seq<Chunk>, nodeRun: nat, stream: string, content: string, at: int): seq<Chunk> {
    chunks + [Chunk(nodeRun, MaxSequence(chunks, nodeRun) + 1, stream, content, at)]
  }

  /** `apply_workflow_result_event`, one transaction; false when the event was applied before. */
  function Apply(db: NodeDb, e: ResultEvent, now: int): (NodeDb, bool) {
    if e.id in db.applied then (db, false)
    else
      var seen := db.(applied := db.applied + {e.id});
      match e.kind
      case Status(_, _, _) =>
        if e.nodeRun in db.nodeRuns && Admitted(db.nodeRuns[e.nodeRun], e)
        then (seen.(nodeRuns := db.nodeRuns[e.nodeRun := Reported(db.nodeRuns[e.nodeRun], e.kind, now)]), true)
        else (seen, true)
      case NewChunk(stream, content) =>
        (seen.(chunks := Append(db.chunks, e.nodeRun, stream, content, e.timestamp)), true)
      case NewArtifact(name, uri) =>
        (seen.(artifacts := db.artifacts + [Artifact(e.nodeRun, name, uri, e.timestamp)]), true)
  }

  /** A chunk without its number. */
  datatype Log = Log(nodeRun: nat, stream: string, content: string, createdAt: int)

  function LogsIn(chunks: seq<Chunk>): (logs: seq<Log>)
    ensures |logs| == |chunks|
  {
    seq(|chunks|, i requires 0 <= i < |chunks| =>
      Log(chunks[i].nodeRun, chunks[i].stream, chunks[i].content, chunks[i].createdAt))
  }

  // ---- executor leases ----

  /** The compare-and-swap guard; a null `executor_claimed_at` compares as unknown. */
  predicate ExecutorFree(row: NodeRun, staleBefore: int) {
    row.executor.None? || (row.claimedAt.Some? && row.claimedAt.value < staleBefore)
  }

  /** `claim_workflow_node_run_executor`. */
  function ClaimExecutor(row: NodeRun, replica: string, now: int, staleBefore: int): (NodeRun, bool) {
    if ExecutorFree(row, staleBefore)
    then (row.(executor := Some(replica), claimedAt := Some(now), releasedAt := None), true)
    else (row, false)
  }

  /** `release_workflow_node_run_executor`. */
  function ReleaseExecutor(row: NodeRun, replica: string, now: int): NodeRun {
    if row.executor == Some(replica)
    then row.(lastExecutor := Some(replica), executor := None, releasedAt := Some(now))
    else row
  }

  // ---- steps ----

  datatype Action =
    | CreateNodeRun(nodeRun: nat)
    | UpdateNodeRun(
        nodeRun: nat, status: WorkflowStatus, attempt: Option<int>, output: Option<string>, message: Option<string>)
    | ApplyEvent(e: ResultEvent)
    | AppendChunk(nodeRun: nat, stream: string, content: string)
    | Claim(nodeRun: nat, replica: string, staleBefore: int)
    | Release(nodeRun: nat, replica: string)

  datatype Step = At(now: int, action: Action)

  predicate Enabled(db: NodeDb, step: Step) {
    step.action.CreateNodeRun? ==> step.action.nodeRun !in db.nodeRuns
  }

  const NEW_NODE_RUN := NodeRun(Queued, 0, None, None, None, None, None, None, None, None)

  function Next(db: NodeDb, step: Step): NodeDb {
    var now := step.now;
    match step.action
    case CreateNodeRun(x) => db.(nodeRuns := db.nodeRuns[x := NEW_NODE_RUN])
    case UpdateNodeRun(x, status, attempt, output, message) =>
      if x !in db.nodeRuns then db
      else
        var row := db.nodeRuns[x];
        db.(nodeRuns := db.nodeRuns[x := Stamped(row, status, now)
              .(attempt := if attempt.Some? then attempt.value else row.attempt,
                output := Coalesce(output, row.output), message := Coalesce(message, row.message))])
    case ApplyEvent(e) => Apply(db, e, now).0
    case AppendChunk(x, stream, content) => db.(chunks := Append(db.chunks, x, stream, content, now))
    case Claim(x, replica, staleBefore) =>
      if x !in db.nodeRuns then db
      else db.(nodeRuns := db.nodeRuns[x := ClaimExecutor(db.nodeRuns[x], replica, now, staleBefore).0])
    case Release(x, replica) =>
      if x !in db.nodeRuns then db
      else db.(nodeRuns := db.nodeRuns[x := ReleaseExecutor(db.nodeRuns[x], replica, now)])
  }

  const EMPTY_DB := NodeDb(map[], {}, [], [])

  ghost predicate Run(states: seq<NodeDb>, steps: seq<Step>) {
    && |states| == |steps| + 1 && states[0] == EMPTY_DB
    && forall k :: 0 <= k < |steps| ==> Enabled(states[k], steps[k]) && states[k + 1] == Next(states[k], steps[k])
  }
}
