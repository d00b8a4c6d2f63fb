/**
 The work queue's operations as they run (runinator-database/src/operations.rs): statement by
 statement on the stored tables, with the dialect branches. What a claim's subselect picked is
 given; each method is one step of module Orchestration, or two where it commits twice.
 */
module WorkStore {
  import opened Wrappers
  import opened Render
  import opened Orchestration
  import opened Selection
  import ReadyClaims
  import ReadyRuns
  import L = Leases

  class WorkTables {
    const dialect: SqlDialect
    var ready: map<nat, ReadyNode>
    var runs: map<nat, WorkflowRun>
    var events: set<nat>
    var marked: set<nat>
    var nextReady: nat
    var nextRun: nat

    constructor (dialect: SqlDialect)
      ensures View() == EMPTY && this.dialect == dialect
    {
      this.dialect := dialect;
      ready, runs, events, marked, nextReady, nextRun := map[], map[], {}, {}, 0, 0;
    }

    ghost function View(): Db
      reads this
    {
      Db(ready, runs, events, marked, nextReady, nextRun)
    }

    /** `create_workflow_run`. */
    method CreateWorkflowRun(now: int) returns (run: nat)
      modifies `runs, `nextRun
      ensures View() == Next(old(View()), At(now, CreateRun))
      ensures run == old(nextRun) && nextRun == run + 1
      ensures runs == old(runs)[run := WorkflowRun(Queued, now, None, None, L.Lease(None, None))]
    {
      run := nextRun;
      runs := runs[run := WorkflowRun(Queued, now, None, None, L.FREE)];
      nextRun := nextRun + 1;
    }

    /** `UPDATE ... WHERE workflow_run_id = ? AND node_id = ? AND completed_at IS NULL AND ready_at <= ?`. */
    method SettleDuePending(run: nat, node: string, now: int)
      modifies `ready
      ensures ready == SettleDue(old(ready), run, node, now)
      ensures ready.Keys == old(ready).Keys
      ensures forall id <- ready ::
                var was := old(ready)[id];
                ready[id] ==
                if was.run == run && was.node == node && was.completedAt.None? && was.readyAt <= now
                then was.(completedAt := Some(now), status := Succeeded, updatedAt := now)
                else was
      ensures forall id <- ready ::
                ready[id].run == run && ready[id].node == node && ready[id].completedAt.None? ==>
                  ready[id].readyAt > now
    {
      ready := map id | id in ready ::
        if ready[id].run == run && ready[id].node == node && ready[id].completedAt.None? && ready[id].readyAt <= now
        then ready[id].(completedAt := Some(now), status := Succeeded, updatedAt := now)
        else ready[id];
    }

    /**
     One transaction; a known event commits nothing and returns nothing. A new one settles the due
     pending rows of its pair and, unless its row is there already, inserts a row due when asked for.
     */
    method EnqueueReadyNode(event: nat, run: nat, node: string, readyAt: int, now: int) returns (row: Option<nat>)
      modifies `ready, `events, `nextReady
      ensures (View(), row) == Enqueue(old(View()), event, run, node, readyAt, now)
      ensures View() == Next(old(View()), At(now, EnqueueNode(event, run, node, readyAt)))
      ensures row.Some? <==>
              && event !in old(events)
              && forall id <- old(ready) ::
                   !(old(ready)[id].sourceEvent == event && old(ready)[id].run == run && old(ready)[id].node == node)
      ensures row.Some? ==>
                && row.value == old(nextReady) && nextReady == row.value + 1
                && row.value in ready && ReadyRuns.FreshRow(ready[row.value], event, run, node, readyAt, now)
      ensures row.Some? && readyAt <= now ==> forall who :: row.value in ClaimPool(ready, who, now)
      ensures row.None? ==> nextReady == old(nextReady)
      ensures ready.Keys == old(ready).Keys + if row.Some? then {row.value} else {}
      ensures events == old(events) + {event}
      ensures forall id <- old(ready) :: row != Some(id) ==>
                var was := old(ready)[id];
                ready[id] ==
                if event !in old(events)
                   && was.run == run && was.node == node && was.completedAt.None? && was.readyAt <= now
                then was.(completedAt := Some(now), status := Succeeded, updatedAt := now)
                else was
    {
      if event in events {
        return None;
      }
      events := events + {event};
      SettleDuePending(run, node, now);
      if Conflicts(ready, event, run, node) {
        return None;
      }
      ready := ready[nextReady := ReadyNode(event, run, node, Queued, readyAt, 0, L.FREE, None, now, now, None)];
      row := Some(nextReady);
      nextReady := nextReady + 1;
    }

    /** The claim's `UPDATE ... WHERE id IN (picked)`; what was picked, in the columns of the table. */
    method UpdateClaimedNodes(
        who: L.Owner, now: int, until: int, limit: int, picked: set<nat>, ghost skipped: set<nat>)
      requires picked == ClaimPick(ready, who, now, limit, skipped)
      modifies `ready
      ensures View() == Next(old(View()), At(now, ClaimNodes(who, until, limit, skipped)))
      ensures ready.Keys == old(ready).Keys
      ensures forall id <- ready ::
                var was := old(ready)[id];
                ready[id] ==
                if id in picked
                then was.(lease := L.Lease(Some(who), Some(until)), attempts := was.attempts + 1, status := Running,
                          updatedAt := now)
                else was
    {
      ready := map id | id in ready ::
        if id in picked
        then ready[id].(lease := L.Lease(Some(who), Some(until)), attempts := ready[id].attempts + 1,
                        status := Running, updatedAt := now)
        else ready[id];
      assert ready == ClaimRows(old(ready), picked, who, now, until);
    }

    /** MySQL's second statement: whatever carries (who, until) by the time it runs. */
    method SelectClaimedNodes(who: L.Owner, until: int) returns (rows: set<nat>)
      ensures rows == ReadyClaims.NodesReadBack(ready, who, until)
      ensures forall id :: id in rows <==>
                id in ready && ready[id].lease.owner == Some(who) && ready[id].lease.until == Some(until)
    {
      rows := set id | id in ready && ready[id].lease == L.Lease(Some(who), Some(until));
    }

    /**
     The whole claim with nothing in between its two statements on MySQL. `ReadBacks` says what the
     second returns when there is. Every granted row is due, and a due row that is claimable, not
     granted and not skipped comes after each granted one and finds a full batch ahead of it.
     */
    method ClaimReadyNodes(
        who: L.Owner, now: int, until: int, limit: int, picked: set<nat>, ghost skipped: set<nat>)
      returns (rows: set<nat>)
      requires picked == ClaimPick(ready, who, now, limit, skipped)
      modifies `ready
      ensures View() == Next(old(View()), At(now, ClaimNodes(who, until, limit, skipped)))
      ensures picked <= rows
      ensures rows == picked <==> !dialect.MySql? || ReadyClaims.NodesReadBack(old(ready), who, until) <= picked
      ensures dialect.MySql? ==>
                forall id :: id in rows <==> id in ready && ready[id].lease == L.Lease(Some(who), Some(until))
      ensures |picked| <= if limit < 1 then 1 else limit
      ensures forall id <- picked ::
                && id in old(ready) && old(ready)[id].completedAt.None? && old(ready)[id].readyAt <= now
                && (old(ready)[id].lease.until.None? || old(ready)[id].lease.until.value <= now
                    || old(ready)[id].lease.owner == Some(who))
      ensures forall id <- old(ready) ::
                && id !in picked && id !in skipped
                && old(ready)[id].completedAt.None? && old(ready)[id].readyAt <= now
                && (old(ready)[id].lease.until.None? || old(ready)[id].lease.until.value <= now
                    || old(ready)[id].lease.owner == Some(who))
                ==>
                && |picked| == (if limit < 1 then 1 else limit)
                && forall p <- picked ::
                     || old(ready)[p].readyAt < old(ready)[id].readyAt
                     || (old(ready)[p].readyAt == old(ready)[id].readyAt && p < id)
      ensures ready.Keys == old(ready).Keys
      ensures forall id <- ready ::
                var was := old(ready)[id];
                ready[id] ==
                if id in picked
                then was.(lease := L.Lease(Some(who), Some(until)), attempts := was.attempts + 1, status := Running,
                          updatedAt := now)
                else was
    {
      ReadyClaims.NodeReadBackIsReturning(ready, who, now, until, limit, skipped);
      ReadyClaims.PickInColumns(ready, who, now, limit, skipped);
      forall id | id in ready && id !in picked && id !in skipped
                  && ready[id].completedAt.None? && ready[id].readyAt <= now
                  && (ready[id].lease.until.None? || ready[id].lease.until.value <= now
                      || ready[id].lease.owner == Some(who))
        ensures |picked| == (if limit < 1 then 1 else limit)
        ensures forall p <- picked ::
                  ready[p].readyAt < ready[id].readyAt || (ready[p].readyAt == ready[id].readyAt && p < id)
      {
        ReadyClaims.PickLeftOut(ready, who, now, limit, skipped, id);
      }
      UpdateClaimedNodes(who, now, until, limit, picked, skipped);
      if dialect.MySql? {
        rows := SelectClaimedNodes(who, until);
      } else {
        rows := picked;
      }
    }

    /** The `UPDATE ... WHERE id = ?` of a claim by id, due or not. */
    method UpdateClaimedNode(id: nat, who: L.Owner, now: int, until: int) returns (affected: bool)
      modifies `ready
      ensures View() == Next(old(View()), At(now, ClaimNode(id, who, until)))
      ensures affected <==>
              && id in old(ready) && old(ready)[id].completedAt.None?
              && (old(ready)[id].lease.until.None? || old(ready)[id].lease.until.value <= now
                  || old(ready)[id].lease.owner == Some(who))
      ensures ready ==
              if affected
              then old(ready)[id := old(ready)[id].(lease := L.Lease(Some(who), Some(until)),
                                                    attempts := old(ready)[id].attempts + 1,
                                                    status := Running, updatedAt := now)]
              else old(ready)
    {
      affected := id in ready && ready[id].completedAt.None? && L.Claimable(ready[id].lease, who, now);
      if affected {
        ready := ready[id := ready[id].(lease := L.Lease(Some(who), Some(until)), attempts := ready[id].attempts + 1,
                                        status := Running, updatedAt := now)];
      }
      assert ready == ClaimRows(old(ready), ClaimOnePick(old(ready), id, who, now), who, now, until);
    }

    /** MySQL's second statement: the row if it carries (who, until) by the time this runs. */
    method SelectClaimedNode(id: nat, who: L.Owner, until: int) returns (row: Option<ReadyNode>)
      ensures row.Some? <==>
              id in ready && ready[id].lease.owner == Some(who) && ready[id].lease.until == Some(until)
      ensures row.Some? ==> row.value == ready[id]
    {
      row := if id in ready && ready[id].lease == L.Lease(Some(who), Some(until)) then Some(ready[id]) else None;
    }

    /** The whole claim by id, with nothing in between its two statements on MySQL. */
    method ClaimReadyNode(id: nat, who: L.Owner, now: int, until: int) returns (row: Option<ReadyNode>)
      modifies `ready
      ensures View() == Next(old(View()), At(now, ClaimNode(id, who, until)))
      ensures row.Some? ==> id in ready && row.value == ready[id]
      ensures var granted :=
                && id in old(ready) && old(ready)[id].completedAt.None?
                && (old(ready)[id].lease.until.None? || old(ready)[id].lease.until.value <= now
                    || old(ready)[id].lease.owner == Some(who));
              && (row.Some? <==>
                    || granted
                    || (dialect.MySql? && id in old(ready) && old(ready)[id].lease == L.Lease(Some(who), Some(until))))
              && ready ==
                 if granted
                 then old(ready)[id := old(ready)[id].(lease := L.Lease(Some(who), Some(until)),
                                                       attempts := old(ready)[id].attempts + 1,
                                                       status := Running, updatedAt := now)]
                 else old(ready)
    {
      var affected := UpdateClaimedNode(id, who, now, until);
      if dialect.MySql? {
        row := SelectClaimedNode(id, who, until);
      } else {
        row := if affected then Some(ready[id]) else None;
      }
    }

    method CompleteReadyNode(id: nat, who: L.Owner, now: int) returns (ok: bool)
      modifies `ready
      ensures View() == Next(old(View()), At(now, CompleteNode(id, who)))
      ensures ok <==> id in old(ready) && old(ready)[id].lease.owner == Some(who)
      ensures ready ==
              if ok
              then old(ready)[id := old(ready)[id].(completedAt := Some(now), status := Succeeded, updatedAt := now)]
              else old(ready)
    {
      ok := id in ready && ready[id].lease.owner == Some(who);
      if ok {
        ready := ready[id := ready[id].(completedAt := Some(now), status := Succeeded, updatedAt := now)];
      }
    }

    /** A released row is pending, queued and claimable by anybody as soon as it is due. */
    method ReleaseReadyNode(id: nat, who: L.Owner, now: int) returns (ok: bool)
      modifies `ready
      ensures View() == Next(old(View()), At(now, ReleaseNode(id, who)))
      ensures ok <==> id in old(ready) && old(ready)[id].lease.owner == Some(who) && old(ready)[id].completedAt.None?
      ensures ready ==
              if ok
              then old(ready)[id := old(ready)[id].(lease := L.Lease(None, None), status := Queued, updatedAt := now)]
              else old(ready)
      ensures ok ==> forall other, t :: ready[id].readyAt <= t ==> id in ClaimPool(ready, other, t)
    {
      ok := id in ready && ready[id].lease.owner == Some(who) && ready[id].completedAt.None?;
      if ok {
        ready := ready[id := ready[id].(lease := L.FREE, status := Queued, updatedAt := now)];
      }
    }

    /** The announcement's `UPDATE ... WHERE id IN (picked)`. */
    method UpdateAnnounced(now: int, lease: int, limit: int, picked: set<nat>, ghost skipped: set<nat>)
      requires picked == AnnouncePick(ready, now, limit, skipped) && picked <= ready.Keys
      modifies `ready
      ensures View() == Next(old(View()), At(now, Announce(lease, limit, skipped)))
      ensures ready.Keys == old(ready).Keys
      ensures forall id <- ready :: ReadyClaims.AnnouncedAs(old(ready)[id], ready[id], id in picked, now, lease)
    {
      ReadyClaims.AnnounceRowsInColumns(ready, picked, now, lease);
      var after := map id | id in ready :: if id in picked then Announced(ready[id], now, lease) else ready[id];
      assert after == AnnounceRows(ready, picked, now, lease);
      ready := after;
    }

    /**
     `claim_ready_nodes_for_announce` on the dialects with `UPDATE ... RETURNING`: rows that are neither
     claimed nor announced, due or not, in order; the announcement holds for the lease past the due time.
     */
    method AnnounceReadyNodes(now: int, lease: int, limit: int, picked: set<nat>, ghost skipped: set<nat>)
      requires picked == AnnouncePick(ready, now, limit, skipped)
      modifies `ready
      ensures View() == Next(old(View()), At(now, Announce(lease, limit, skipped)))
      ensures |picked| <= if limit < 1 then 1 else limit
      ensures forall id <- picked ::
                && id in old(ready) && old(ready)[id].completedAt.None?
                && (old(ready)[id].lease.until.None? || old(ready)[id].lease.until.value <= now)
                && (old(ready)[id].announcedUntil.None? || old(ready)[id].announcedUntil.value <= now)
      ensures forall id <- old(ready) ::
                && id !in picked && id !in skipped && old(ready)[id].completedAt.None?
                && (old(ready)[id].lease.until.None? || old(ready)[id].lease.until.value <= now)
                && (old(ready)[id].announcedUntil.None? || old(ready)[id].announcedUntil.value <= now)
                ==>
                && |picked| == (if limit < 1 then 1 else limit)
                && forall p <- picked ::
                     || old(ready)[p].readyAt < old(ready)[id].readyAt
                     || (old(ready)[p].readyAt == old(ready)[id].readyAt && p < id)
      ensures ready.Keys == old(ready).Keys
      ensures forall id <- ready :: ReadyClaims.AnnouncedAs(old(ready)[id], ready[id], id in picked, now, lease)
    {
      ReadyClaims.AnnouncePickInColumns(ready, now, limit, skipped);
      ReadyClaims.AnnouncePassesOver(ready, now, limit, skipped);
      UpdateAnnounced(now, lease, limit, picked, skipped);
    }

    /** `settle_terminal_run_ready_nodes`: any pending rows of finished runs, as many as fit. */
    method SettleTerminalRunReadyNodes(now: int, limit: int, chosen: set<nat>)
      requires Enabled(View(), At(now, SettleTerminal(limit, chosen)))
      modifies `ready
      ensures View() == Next(old(View()), At(now, SettleTerminal(limit, chosen)))
      ensures forall id <- chosen ::
                && id in old(ready) && old(ready)[id].completedAt.None? && old(ready)[id].run in runs
                && runs[old(ready)[id].run].status in {Succeeded, Failed, TimedOut, Canceled}
      ensures (exists id <- ready ::
                 && id !in chosen && ready[id].completedAt.None? && ready[id].run in runs
                 && runs[ready[id].run].status in {Succeeded, Failed, TimedOut, Canceled})
              ==> |chosen| == if limit < 1 then 1 else limit
      ensures |chosen| <= if limit < 1 then 1 else limit
      ensures ready.Keys == old(ready).Keys
      ensures forall id <- ready ::
                ready[id] ==
                if id in chosen
                then old(ready)[id].(completedAt := Some(now), status := Succeeded, updatedAt := now)
                else old(ready)[id]
    {
      if |chosen| == |Doomed(View())| { SubsetOfSameSize(chosen, Doomed(View())); }
      ready := map id | id in ready ::
        if id in chosen then ready[id].(completedAt := Some(now), status := Succeeded, updatedAt := now) else ready[id];
    }

    /** The update of the run itself; it asks for nothing. */
    method SetWorkflowRunStatus(run: nat, status: WorkflowStatus, now: int)
      modifies `runs
      ensures View() == Next(old(View()), At(now, SetRunStatus(run, status)))
      ensures runs.Keys == old(runs).Keys
      ensures forall id <- runs ::
                var was := old(runs)[id];
                runs[id] ==
                if id == run
                then was.(status := status,
                          startedAt := if status == Running && was.startedAt.None? then Some(now) else was.startedAt,
                          finishedAt := if status in {Succeeded, Failed, TimedOut, Canceled} then Some(now)
                                        else was.finishedAt)
                else was
    {
      if run in runs {
        var r := runs[run];
        var startedAt := if status.Running? && r.startedAt.None? then Some(now) else r.startedAt;
        var finishedAt := if IsTerminal(status) then Some(now) else r.finishedAt;
        runs := runs[run := r.(status := status, startedAt := startedAt, finishedAt := finishedAt)];
      }
    }

    /** The update of the pending ready nodes of a finished run, due or not. */
    method SettleRunPending(run: nat, now: int)
      modifies `ready
      ensures View() == Next(old(View()), At(now, SettleRun(run)))
      ensures ready.Keys == old(ready).Keys
      ensures forall id <- ready ::
                var was := old(ready)[id];
                ready[id] ==
                if was.run == run && was.completedAt.None?
                then was.(completedAt := Some(now), status := Succeeded, updatedAt := now)
                else was
    {
      ready := map id | id in ready ::
        if ready[id].run == run && ready[id].completedAt.None?
        then ready[id].(completedAt := Some(now), status := Succeeded, updatedAt := now)
        else ready[id];
      assert ready == CompleteRows(old(ready), PendingOf(old(View()), run), now);
    }

    /**
     Two statements, not one transaction: the status first, then, if it is one of the four terminal
     ones, the run's pending ready nodes. No pending node of a finished run is left unless the second
     is lost.
     */
    method UpdateWorkflowRunStatus(run: nat, status: WorkflowStatus, now: int)
      modifies `runs, `ready
      ensures var first := Next(old(View()), At(now, SetRunStatus(run, status)));
              View() == if IsTerminal(status) then Next(first, At(now, SettleRun(run))) else first
      ensures runs.Keys == old(runs).Keys
      ensures forall id <- runs ::
                var was := old(runs)[id];
                runs[id] ==
                if id == run
                then was.(status := status,
                          startedAt := if status == Running && was.startedAt.None? then Some(now) else was.startedAt,
                          finishedAt := if status in {Succeeded, Failed, TimedOut, Canceled} then Some(now)
                                        else was.finishedAt)
                else was
      ensures ready.Keys == old(ready).Keys
      ensures forall id <- ready ::
                var was := old(ready)[id];
                ready[id] ==
                if status in {Succeeded, Failed, TimedOut, Canceled} && was.run == run && was.completedAt.None?
                then was.(completedAt := Some(now), status := Succeeded, updatedAt := now)
                else was
      ensures status in {Succeeded, Failed, TimedOut, Canceled} ==> PendingOf(View(), run) == {}
    {
      SetWorkflowRunStatus(run, status, now);
      if IsTerminal(status) {
        SettleRunPending(run, now);
      }
    }

    method UpdateClaimedRuns(
        who: L.Owner, statuses: set<WorkflowStatus>, now: int, until: int, limit: int, picked: set<nat>,
        ghost skipped: set<nat>)
      requires picked == RunPick(runs, statuses, who, now, limit, skipped)
      modifies `runs
      ensures View() == Next(old(View()), At(now, ClaimRuns(who, statuses, until, limit, skipped)))
      ensures runs.Keys == old(runs).Keys
      ensures forall id <- runs ::
                runs[id] ==
                if id in picked then old(runs)[id].(lease := L.Lease(Some(who), Some(until))) else old(runs)[id]
    {
      runs := map id | id in runs ::
        if id in picked then runs[id].(lease := L.Lease(Some(who), Some(until))) else runs[id];
      assert runs == ClaimRunRows(old(runs), picked, who, until);
    }

    method SelectClaimedRuns(who: L.Owner, until: int) returns (rows: set<nat>)
      ensures rows == ReadyClaims.RunsReadBack(runs, who, until)
      ensures forall id :: id in rows <==>
                id in runs && runs[id].lease.owner == Some(who) && runs[id].lease.until == Some(until)
    {
      rows := set id | id in runs && runs[id].lease == L.Lease(Some(who), Some(until));
    }

    /**
     An empty status list claims nothing. Otherwise every granted run had one of the statuses and a claim
     that was unset, ended or the claimant's own, and such a run that is neither granted nor skipped was
     created after each granted one and finds a full batch ahead of it.
     */
    method ClaimWorkflowRuns(
        who: L.Owner, statuses: set<WorkflowStatus>, now: int, until: int, limit: int, picked: set<nat>,
        ghost skipped: set<nat>)
      returns (rows: set<nat>)
      requires picked == RunPick(runs, statuses, who, now, limit, skipped)
      modifies `runs
      ensures View() == Next(old(View()), At(now, ClaimRuns(who, statuses, until, limit, skipped)))
      ensures statuses == {} ==> rows == {}
      ensures statuses != {} ==>
                && picked <= rows
                && (rows == picked <==> !dialect.MySql? || ReadyClaims.RunsReadBack(old(runs), who, until) <= picked)
                && (dialect.MySql? ==>
                      forall id :: id in rows <==> id in runs && runs[id].lease == L.Lease(Some(who), Some(until)))
      ensures |picked| <= if limit < 1 then 1 else limit
      ensures forall id <- picked ::
                && id in old(runs) && old(runs)[id].status in statuses
                && (old(runs)[id].lease.until.None? || old(runs)[id].lease.until.value <= now
                    || old(runs)[id].lease.owner == Some(who))
      ensures forall id <- old(runs) ::
                && id !in picked && id !in skipped && old(runs)[id].status in statuses
                && (old(runs)[id].lease.until.None? || old(runs)[id].lease.until.value <= now
                    || old(runs)[id].lease.owner == Some(who))
                ==>
                && |picked| == (if limit < 1 then 1 else limit)
                && forall p <- picked ::
                     || old(runs)[p].createdAt < old(runs)[id].createdAt
                     || (old(runs)[p].createdAt == old(runs)[id].createdAt && p < id)
      ensures runs.Keys == old(runs).Keys
      ensures forall id <- runs ::
                runs[id] ==
                if id in picked then old(runs)[id].(lease := L.Lease(Some(who), Some(until))) else old(runs)[id]
    {
      ReadyClaims.RunReadBackIsReturning(runs, statuses, who, now, until, limit, skipped);
      ReadyClaims.RunPickInColumns(runs, statuses, who, now, limit, skipped);
      forall id | id in runs && id !in picked && id !in skipped && runs[id].status in statuses
                  && (runs[id].lease.until.None? || runs[id].lease.until.value <= now
                      || runs[id].lease.owner == Some(who))
        ensures |picked| == (if limit < 1 then 1 else limit)
        ensures forall p <- picked ::
                  runs[p].createdAt < runs[id].createdAt || (runs[p].createdAt == runs[id].createdAt && p < id)
      {
        ReadyClaims.RunPickLeftOut(runs, statuses, who, now, limit, skipped, id);
      }
      if statuses == {} {
        assert picked == {};
        assert runs == ClaimRunRows(runs, {}, who, until);
        return {};
      }
      UpdateClaimedRuns(who, statuses, now, until, limit, picked, skipped);
      if dialect.MySql? {
        rows := SelectClaimedRuns(who, until);
      } else {
        rows := picked;
      }
    }

    /** Only the holder moves the deadline, and nothing else of the run. */
    method RenewWorkflowRunClaim(run: nat, who: L.Owner, now: int, until: int) returns (ok: bool)
      modifies `runs
      ensures View() == Next(old(View()), At(now, RenewRunClaim(run, who, until)))
      ensures ok <==> run in old(runs) && old(runs)[run].lease.owner == Some(who)
      ensures runs ==
              if ok then old(runs)[run := old(runs)[run].(lease := L.Lease(Some(who), Some(until)))] else old(runs)
    {
      ok := run in runs && runs[run].lease.owner == Some(who);
      if ok {
        runs := runs[run := runs[run].(lease := runs[run].lease.(until := Some(until)))];
      }
    }

    method ReleaseWorkflowRunClaim(run: nat, who: L.Owner, now: int)
      modifies `runs
      ensures View() == Next(old(View()), At(now, ReleaseRunClaim(run, who)))
      ensures runs ==
              if run in old(runs) && old(runs)[run].lease.owner == Some(who)
              then old(runs)[run := old(runs)[run].(lease := L.Lease(None, None))]
              else old(runs)
      ensures run in runs && old(runs)[run].lease.owner == Some(who) ==>
                forall other, t :: L.Claimable(runs[run].lease, other, t)
    {
      if run in runs && runs[run].lease.owner == Some(who) {
        runs := runs[run := runs[run].(lease := L.FREE)];
      }
    }
  }
}
