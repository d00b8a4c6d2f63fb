/**
 The node run operations as they run (runinator-database/src/operations.rs), each one step of
 module NodeRuns.
 */
module NodeRunStore {
  import opened Wrappers
  import opened Orchestration
  import opened NodeRuns

  class NodeRunTables {
    var nodeRuns: map<nat, NodeRun>
    var applied: set<nat>
    var chunks: seq<Chunk>
    var artifacts: seq<Artifact>

    constructor ()
      ensures View() == EMPTY_DB
    {
      nodeRuns, applied, chunks, artifacts := map[], {}, [], [];
    }

    ghost function View(): NodeDb
      reads this
    {
      NodeDb(nodeRuns, applied, chunks, artifacts)
    }

    /** `create_workflow_node_run`: queued, at attempt 0, nobody's. */
    method CreateWorkflowNodeRun(x: nat, now: int)
      requires x !in nodeRuns
      modifies `nodeRuns
      ensures View() == NodeRuns.Next(old(View()), NodeRuns.At(now, CreateNodeRun(x)))
      ensures nodeRuns == old(nodeRuns)[x := NodeRun(Queued, 0, None, None, None, None, None, None, None, None)]
    {
      nodeRuns := nodeRuns[x := NEW_NODE_RUN];
    }

    /**
     One transaction: the event's row first, and nothing else if it was there already. A new chunk event
     adds one chunk, a new artifact event one artifact, and a new status event changes its node run
     unless that would leave a terminal status or the attempt is superseded.
     */
    method ApplyWorkflowResultEvent(e: ResultEvent, now: int) returns (ok: bool)
      modifies this
      ensures (View(), ok) == Apply(old(View()), e, now)
      ensures View() == NodeRuns.Next(old(View()), NodeRuns.At(now, ApplyEvent(e)))
      ensures ok <==> e.id !in old(applied)
      ensures applied == old(applied) + {e.id}
      ensures artifacts ==
              if ok && e.kind.NewArtifact?
              then old(artifacts) + [Artifact(e.nodeRun, e.kind.name, e.kind.uri, e.timestamp)]
              else old(artifacts)
      ensures !(ok && e.kind.NewChunk?) ==> chunks == old(chunks)
      ensures ok && e.kind.NewChunk? ==>
                exists sequence ::
                  && chunks == old(chunks) + [Chunk(e.nodeRun, sequence, e.kind.stream, e.kind.content, e.timestamp)]
                  && Follows(old(chunks), e.nodeRun, sequence)
      ensures nodeRuns ==
              if ok && e.kind.Status? && e.nodeRun in old(nodeRuns) && MayReport(old(nodeRuns)[e.nodeRun], e)
              then old(nodeRuns)[e.nodeRun := nodeRuns[e.nodeRun]]
              else old(nodeRuns)
      ensures ok && e.kind.Status? && e.nodeRun in old(nodeRuns) && MayReport(old(nodeRuns)[e.nodeRun], e) ==>
                && e.nodeRun in nodeRuns
                && nodeRuns[e.nodeRun].attempt == old(nodeRuns)[e.nodeRun].attempt
                && Moved(old(nodeRuns)[e.nodeRun], nodeRuns[e.nodeRun], e.kind.status, e.kind.output, e.kind.message,
                         now)
    {
      if e.id in applied {
        return false;
      }
      applied := applied + {e.id};
      match e.kind {
        case Status(status, output, message) =>
          if e.nodeRun in nodeRuns
             && !(IsTerminal(nodeRuns[e.nodeRun].status) && !IsTerminal(status))
             && (e.attempt <= 0 || nodeRuns[e.nodeRun].attempt <= e.attempt)
          {
            var row := Restamp(nodeRuns[e.nodeRun], status, output, message, now);
            nodeRuns := nodeRuns[e.nodeRun := row];
          }
        case NewChunk(stream, content) =>
          var sequence := NextSequence(e.nodeRun);
          chunks := chunks + [Chunk(e.nodeRun, sequence, stream, content, e.timestamp)];
        case NewArtifact(name, uri) =>
          artifacts := artifacts + [Artifact(e.nodeRun, name, uri, e.timestamp)];
      }
      ok := true;
    }

    /** The assignments both status updates share. */
    method Restamp(
        was: NodeRun, status: WorkflowStatus, output: Option<string>, message: Option<string>, now: int)
      returns (row: NodeRun)
      ensures row == Stamped(was, status, now)
                       .(output := Coalesce(output, was.output), message := Coalesce(message, was.message))
      ensures row.attempt == was.attempt && Moved(was, row, status, output, message, now)
    {
      row := was.(status := status, output := Coalesce(output, was.output), message := Coalesce(message, was.message));
      if status.Running? {
        row := row.(startedAt := Some(now));
      } else if status.Queued? {
        row := row.(startedAt := None, finishedAt := None);
      }
      if IsTerminal(status) {
        row := row.(finishedAt := Some(now));
      }
    }

    /** `SELECT COALESCE(MAX(sequence), 0) + 1`. */
    method NextSequence(nodeRun: nat) returns (sequence: int)
      ensures sequence == MaxSequence(chunks, nodeRun) + 1
      ensures Follows(chunks, nodeRun, sequence)
    {
      MaxIsUpperBound(chunks, nodeRun);
      sequence := MaxSequence(chunks, nodeRun) + 1;
    }

    /** The slot must be free, or its claim older than the cutoff; a winner overwrites claim and release times. */
    method ClaimNodeRunExecutor(x: nat, replica: string, now: int, staleBefore: int) returns (ok: bool)
      modifies `nodeRuns
      ensures View() == NodeRuns.Next(old(View()), NodeRuns.At(now, Claim(x, replica, staleBefore)))
      ensures ok <==>
              && x in old(nodeRuns)
              && (|| old(nodeRuns)[x].executor.None?
                  || (old(nodeRuns)[x].claimedAt.Some? && old(nodeRuns)[x].claimedAt.value < staleBefore))
      ensures nodeRuns ==
              if ok
              then old(nodeRuns)[x := old(nodeRuns)[x].(executor := Some(replica), claimedAt := Some(now),
                                                        releasedAt := None)]
              else old(nodeRuns)
    {
      ok := x in nodeRuns
            && (nodeRuns[x].executor.None?
                || (nodeRuns[x].claimedAt.Some? && nodeRuns[x].claimedAt.value < staleBefore));
      if ok {
        nodeRuns := nodeRuns[x := nodeRuns[x].(executor := Some(replica), claimedAt := Some(now), releasedAt := None)];
      }
    }

    /** A release by anybody but the holder changes nothing; the holder leaves its name and the time. */
    method ReleaseNodeRunExecutor(x: nat, replica: string, now: int)
      modifies `nodeRuns
      ensures View() == NodeRuns.Next(old(View()), NodeRuns.At(now, Release(x, replica)))
      ensures nodeRuns ==
              if x in old(nodeRuns) && old(nodeRuns)[x].executor == Some(replica)
              then old(nodeRuns)[x := old(nodeRuns)[x].(lastExecutor := Some(replica), executor := None,
                                                        releasedAt := Some(now))]
              else old(nodeRuns)
    {
      if x in nodeRuns && nodeRuns[x].executor == Some(replica) {
        nodeRuns := nodeRuns[x := nodeRuns[x].(lastExecutor := Some(replica), executor := None,
                                               releasedAt := Some(now))];
      }
    }

    /** Unguarded, unlike result events: a caller may move a terminal row back. */
    method UpdateWorkflowNodeRun(
        x: nat, status: WorkflowStatus, attempt: Option<int>, output: Option<string>, message: Option<string>, now: int)
      modifies `nodeRuns
      ensures View() == NodeRuns.Next(old(View()), NodeRuns.At(now, UpdateNodeRun(x, status, attempt, output, message)))
      ensures nodeRuns.Keys == old(nodeRuns).Keys
      ensures forall y <- nodeRuns :: y != x ==> nodeRuns[y] == old(nodeRuns)[y]
      ensures x in nodeRuns ==>
                && nodeRuns[x].attempt == (if attempt.Some? then attempt.value else old(nodeRuns)[x].attempt)
                && Moved(old(nodeRuns)[x], nodeRuns[x], status, output, message, now)
    {
      if x in nodeRuns {
        var row := Restamp(nodeRuns[x], status, output, message, now);
        if attempt.Some? {
          row := row.(attempt := attempt.value);
        }
        nodeRuns := nodeRuns[x := row];
      }
    }
  }

  // ---- the columns ----

  /** The number is beyond every stored one of the node run, and by one only. */
  ghost predicate Follows(chunks: seq<Chunk>, nodeRun: nat, sequence: int) {
    && sequence >= 1
    && (forall c <- chunks :: c.nodeRun == nodeRun ==> c.sequence < sequence)
    && (sequence > 1 ==> exists c <- chunks :: c.nodeRun == nodeRun && c.sequence == sequence - 1)
  }

  /**
   A status event is discarded if the row has one of the four terminal statuses and the event has not, or
   if the event's attempt is set and behind the row's.
   */
  ghost predicate MayReport(row: NodeRun, e: ResultEvent)
    requires e.kind.Status?
  {
    && (row.status in {Succeeded, Failed, TimedOut, Canceled} ==>
          e.kind.status in {Succeeded, Failed, TimedOut, Canceled})
    && !(0 < e.attempt < row.attempt)
  }

  /** What both status updates write: a given output or message replaces the stored one, a missing one does not. */
  ghost predicate Moved(
      was: NodeRun, row: NodeRun, status: WorkflowStatus, output: Option<string>, message: Option<string>, now: int)
  {
    && row.status == status
    && row.output == (if output.Some? then output else was.output)
    && row.message == (if message.Some? then message else was.message)
    && row.startedAt == (if status == Running then Some(now) else if status == Queued then None else was.startedAt)
    && row.finishedAt == (if status in {Succeeded, Failed, TimedOut, Canceled} then Some(now)
                          else if status == Queued then None else was.finishedAt)
    && row.executor == was.executor && row.claimedAt == was.claimedAt
    && row.releasedAt == was.releasedAt && row.lastExecutor == was.lastExecutor
  }

  lemma {:induction false} MaxIsUpperBound(chunks: seq<Chunk>, nodeRun: nat)
    ensures Follows(chunks, nodeRun, MaxSequence(chunks, nodeRun) + 1)
  {
    if chunks != [] {
      var front, last := chunks[..|chunks| - 1], chunks[|chunks| - 1];
      MaxIsUpperBound(front, nodeRun);
      assert chunks == front + [last] && last in chunks;
      forall c | c in front ensures c in chunks {}
    }
  }
}
