/**
 Workflow-run statuses over whole runs: exactly when a terminal status lasts, and what reopening a
 run means for its ready nodes (runinator-database/src/operations.rs).
 */
module RunStatus {
  import opened Wrappers
  import opened Orchestration
  import ReadyRuns

  predicate Over(db: Db, run: nat) {
    run in db.runs && IsTerminal(db.runs[run].status)
  }

  /** An update that gives the run a live status. */
  predicate Reopens(step: Step, run: nat) {
    step.action.SetRunStatus? && step.action.run == run && !IsTerminal(step.action.status)
  }

  /** A step that takes the run out of its terminal status: it reopens the run, or deletes it. */
  predicate TakesOut(step: Step, run: nat) {
    Reopens(step, run) || step.action == ArchiveRun(run)
  }

  lemma {:induction false} RunIdsBounded(states: seq<Db>, steps: seq<Step>, k: nat)
    requires Run(states, steps) && k < |states|
    ensures forall run <- states[k].runs :: run < states[k].nextRun
  {
    if k > 0 {
      RunIdsBounded(states, steps, k - 1);
      assert states[k] == Next(states[k - 1], steps[k - 1]);
    }
  }

  ghost predicate StaysOver(states: seq<Db>, run: nat, i: nat, j: nat)
    requires j < |states|
  {
    forall k :: i <= k <= j ==> Over(states[k], run)
  }

  ghost predicate NeverTakenOut(steps: seq<Step>, run: nat, i: nat, j: nat)
    requires j <= |steps|
  {
    forall k :: i <= k < j ==> !TakesOut(steps[k], run)
  }

  /**
   A terminal status lasts from state i to state j if and only if no step in between updates the run
   to a live status or archives it. The update itself has no guard.
   */
  lemma {:induction false} TerminalLastsIffNotTakenOut(states: seq<Db>, steps: seq<Step>, run: nat, i: nat, j: nat)
    requires Run(states, steps) && i <= j < |states| && Over(states[i], run)
    ensures StaysOver(states, run, i, j) <==> NeverTakenOut(steps, run, i, j)
    ensures run < states[j].nextRun
    decreases j
  {
    RunIdsBounded(states, steps, j);
    if i < j {
      TerminalLastsIffNotTakenOut(states, steps, run, i, j - 1);
      assert states[j] == Next(states[j - 1], steps[j - 1]);
      assert StaysOver(states, run, i, j) <==> StaysOver(states, run, i, j - 1) && Over(states[j], run);
      assert NeverTakenOut(steps, run, i, j) <==> NeverTakenOut(steps, run, i, j - 1) && !TakesOut(steps[j - 1], run);
    }
  }

  ghost predicate NeverReopened(steps: seq<Step>, run: nat, i: nat, j: nat)
    requires j <= |steps|
  {
    forall k :: i <= k < j ==> !Reopens(steps[k], run)
  }

  /** Run ids are not used again: a run that is stored later on has been stored, and not archived, ever since. */
  lemma {:induction false} StoredAllAlong(states: seq<Db>, steps: seq<Step>, run: nat, i: nat, j: nat)
    requires Run(states, steps) && i <= j < |states| && run < states[i].nextRun && run in states[j].runs
    ensures forall k :: i <= k <= j ==> run in states[k].runs && run < states[k].nextRun
    ensures forall k :: i <= k < j ==> steps[k].action != ArchiveRun(run)
    decreases j - i
  {
    if i < j {
      assert states[i + 1] == Next(states[i], steps[i]);
      StoredAllAlong(states, steps, run, i + 1, j);
    }
  }

  /** As long as the run is stored, only an update to a live status ends a terminal one. */
  lemma StoredStaysOver(states: seq<Db>, steps: seq<Step>, run: nat, i: nat, j: nat)
    requires Run(states, steps) && i <= j < |states| && Over(states[i], run) && run in states[j].runs
    ensures StaysOver(states, run, i, j) <==> NeverReopened(steps, run, i, j)
  {
    RunIdsBounded(states, steps, i);
    StoredAllAlong(states, steps, run, i, j);
    TerminalLastsIffNotTakenOut(states, steps, run, i, j);
  }

  // ---- ready nodes of finished runs ----

  /**
   While a finished run is stored and not reopened every pending ready node it has, those enqueued after
   it finished included, is up for settling; a step that reopens it takes all of them out at once.
   */
  lemma PendingIsDoomedUntilReopened(states: seq<Db>, steps: seq<Step>, run: nat, i: nat, j: nat)
    requires Run(states, steps) && i <= j < |states| && Over(states[i], run) && run in states[j].runs
    requires NeverReopened(steps, run, i, j)
    ensures PendingOf(states[j], run) <= Doomed(states[j])
    ensures j < |steps| && Reopens(steps[j], run) ==>
              && PendingOf(states[j + 1], run) == PendingOf(states[j], run)
              && PendingOf(states[j + 1], run) !! Doomed(states[j + 1])
  {
    StoredStaysOver(states, steps, run, i, j);
    assert StaysOver(states, run, i, j) && Over(states[j], run);
    if j < |steps| && Reopens(steps[j], run) {
      assert states[j + 1] == Next(states[j], steps[j]);
    }
  }

  // ---- archived runs ----

  lemma {:induction false} MarkedByStep(states: seq<Db>, steps: seq<Step>, run: nat, j: nat) returns (i: nat)
    requires Run(states, steps) && j < |states| && run in states[j].marked
    ensures i < j && steps[i].action == MarkRun(run)
    decreases j
  {
    assert states[j] == Next(states[j - 1], steps[j - 1]);
    if run in states[j - 1].marked {
      i := MarkedByStep(states, steps, run, j - 1);
    } else {
      i := j - 1;
    }
  }

  /**
   The archiver deletes only a run that was finished, with no ready node left, when it was marked; the
   run has had a terminal status ever since if and only if no update has reopened it since.
   */
  lemma ArchivedWasOver(states: seq<Db>, steps: seq<Step>, run: nat, j: nat) returns (i: nat)
    requires Run(states, steps) && j < |steps| && steps[j].action == ArchiveRun(run) && run in states[j].runs
    ensures i < j && Over(states[i], run) && forall id <- states[i].ready :: states[i].ready[id].run != run
    ensures StaysOver(states, run, i, j) <==> NeverReopened(steps, run, i, j)
  {
    i := MarkedByStep(states, steps, run, j);
    StoredStaysOver(states, steps, run, i, j);
  }

  /** An enqueue for a finished run is taken like any other and leaves a pending row to settle. */
  lemma EnqueueAfterTheEnd(
      states: seq<Db>, steps: seq<Step>, k: nat, run: nat, event: nat, node: string, readyAt: int, now: int)
    requires Run(states, steps) && k < |states| && Over(states[k], run) && event !in states[k].events
    ensures var (t, row) := Enqueue(states[k], event, run, node, readyAt, now);
            row.Some? && row.value in PendingOf(t, run) && row.value in Doomed(t)
  {
    ReadyRuns.EnqueueLeavesOneDue(states, steps, k, event, run, node, readyAt, now);
  }

  lemma Play(states: seq<Db>, steps: seq<Step>, step: Step) returns (states': seq<Db>, steps': seq<Step>)
    requires Run(states, steps) && Enabled(states[|steps|], step)
    ensures steps' == steps + [step] && Run(states', steps')
    ensures states'[..|steps| + 1] == states && states'[|steps'|] == Next(states[|steps|], step)
  {
    states', steps' := states + [Next(states[|steps|], step)], steps + [step];
  }

  /**
   The update can come: a run that has succeeded gets a node enqueued and is set to running again. It
   is live with a finish time, and its node is no longer up for settling.
   */
  lemma TerminalRunCanReopen(now: int) returns (states: seq<Db>, steps: seq<Step>)
    ensures Run(states, steps) && |steps| == 4
    ensures Over(states[2], 0) && Over(states[3], 0) && Doomed(states[3]) == {0}
    ensures var db := states[4];
            && 0 in db.runs && db.runs[0].status == Running && db.runs[0].finishedAt == Some(now)
            && PendingOf(db, 0) == {0} && Doomed(db) == {}
  {
    states, steps := [EMPTY], [];
    states, steps := Play(states, steps, At(now, CreateRun));
    states, steps := Play(states, steps, At(now, SetRunStatus(0, Succeeded)));
    states, steps := Play(states, steps, At(now, EnqueueNode(0, 0, "n", now)));
    assert states[3].ready.Keys == {0};
    states, steps := Play(states, steps, At(now, SetRunStatus(0, Running)));
  }

  /**
   A row that waits for a later time and survives an enqueue: a timeout is armed, then a poll, and
   both rows of the pair are pending.
   */
  lemma TwoPendingRows(run: nat, node: string, now: int) returns (states: seq<Db>, steps: seq<Step>)
    ensures Run(states, steps) && |steps| == 2
    ensures 0 in states[1].ready && Pending(states[1].ready[0]) && states[1].ready[0].readyAt > now
    ensures PendingOf(states[2], run) == {0, 1} && !ReadyRuns.OnePending(states[2].ready, run, node)
  {
    states, steps := [EMPTY], [];
    states, steps := Play(states, steps, At(now, EnqueueNode(0, run, node, now + 60)));
    assert states[1].ready == map[0 := NewReadyNode(0, run, node, now + 60, now)];
    states, steps := Play(states, steps, At(now, EnqueueNode(1, run, node, now)));
    var ready := states[2].ready;
    assert ready[0] == NewReadyNode(0, run, node, now + 60, now) && ready[1] == NewReadyNode(1, run, node, now, now);
    assert Same(ready[0], run, node) && Same(ready[1], run, node);
  }

  /** Neither the fetch nor the delete asks for the status: a marked run that was reopened is deleted live. */
  lemma LiveRunIsArchived(now: int) returns (states: seq<Db>, steps: seq<Step>)
    ensures Run(states, steps) && |steps| == 5
    ensures 0 in states[4].runs && states[4].runs[0].status == Running && 0 !in states[5].runs
  {
    states, steps := [EMPTY], [];
    states, steps := Play(states, steps, At(now, CreateRun));
    states, steps := Play(states, steps, At(now, SetRunStatus(0, Succeeded)));
    states, steps := Play(states, steps, At(now, MarkRun(0)));
    states, steps := Play(states, steps, At(now, SetRunStatus(0, Running)));
    states, steps := Play(states, steps, At(now, ArchiveRun(0)));
  }
}
