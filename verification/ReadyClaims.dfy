/**
 Claims on the work queue: they exclude each other, take rows in order, drain the queue, and mean
 the same with and without `UPDATE ... RETURNING`, up to one exact condition.
 */
module ReadyClaims {
  import opened Wrappers
  import opened Selection
  import opened Orchestration
  import opened ReadyRuns
  import L = Leases

  // ---- exclusion: both tables refine the lease protocol ----

  /** What a step means for the claim columns of the ready nodes. */
  ghost function NodeView(db: Db, step: Step): L.Step {
    L.At(step.now,
         match step.action
         case EnqueueNode(event, run, node, readyAt) =>
           var row := Enqueue(db, event, run, node, readyAt, step.now).1;
           if row.Some? then L.Add(row.value) else L.Other
         case ClaimNodes(who, until, _, _) => L.Grant(GrantedNodes(db, step), who, until)
         case ClaimNode(_, who, until) => L.Grant(GrantedNodes(db, step), who, until)
         case ReleaseNode(id, who) =>
           if id in db.ready && Pending(db.ready[id]) then L.Release(id, who) else L.Other
         case ArchiveNode(id) => L.Remove(id)
         case _ => L.Other)
  }

  /** What a step means for the scheduler claims on workflow runs. */
  ghost function RunView(db: Db, step: Step): L.Step {
    L.At(step.now,
         match step.action
         case CreateRun => L.Add(db.nextRun)
         case ClaimRuns(who, statuses, until, limit, skipped) =>
           L.Grant(RunPick(db.runs, statuses, who, step.now, limit, skipped), who, until)
         case RenewRunClaim(run, who, until) => L.Renew(run, who, until)
         case ReleaseRunClaim(run, who) => L.Release(run, who)
         case ArchiveRun(run) => L.Remove(run)
         case _ => L.Other)
  }

  /** The lease protocol's state after `k` steps: the claim columns and what every owner believes. */
  ghost function NodeHistory(states: seq<Db>, steps: seq<Step>, start: int, k: nat): L.State
    requires k <= |steps| && |states| == |steps| + 1
  {
    if k == 0 then L.State(map[], map[], start, {})
    else L.Next(NodeHistory(states, steps, start, k - 1), NodeView(states[k - 1], steps[k - 1]))
  }

  ghost function RunHistory(states: seq<Db>, steps: seq<Step>, start: int, k: nat): L.State
    requires k <= |steps| && |states| == |steps| + 1
  {
    if k == 0 then L.State(map[], map[], start, {})
    else L.Next(RunHistory(states, steps, start, k - 1), RunView(states[k - 1], steps[k - 1]))
  }

  ghost predicate ClockFrom(steps: seq<Step>, start: int) {
    && (|steps| > 0 ==> start <= steps[0].now)
    && forall i, j :: 0 <= i < j < |steps| ==> steps[i].now <= steps[j].now
  }

  ghost predicate NodeRefines(db: Db, step: Step, s: L.State) {
    var t := L.Next(s, NodeView(db, step));
    && L.Legal(s, NodeView(db, step))
    && t.leases == ReadyLeases(Next(db, step).ready) && t.clock == step.now
    && forall id <- t.used :: id < Next(db, step).nextReady
  }

  ghost predicate NodeMatches(db: Db, s: L.State) {
    s.leases == ReadyLeases(db.ready) && forall id <- s.used :: id < db.nextReady
  }

  lemma GrantRefines(db: Db, step: Step, s: L.State)
    requires NodeMatches(db, s) && s.clock <= step.now && (step.action.ClaimNodes? || step.action.ClaimNode?)
    ensures NodeRefines(db, step, s)
  {
    forall id | id in GrantedNodes(db, step)
      ensures id in db.ready && L.Claimable(db.ready[id].lease, step.action.who, step.now) {}
    assert L.Next(s, NodeView(db, step)).leases == ReadyLeases(Next(db, step).ready);
  }

  lemma EnqueueRefines(db: Db, step: Step, s: L.State)
    requires Stored(db) && NodeMatches(db, s) && s.clock <= step.now && step.action.EnqueueNode?
    ensures NodeRefines(db, step, s)
  {
    assert L.Next(s, NodeView(db, step)).leases == ReadyLeases(Next(db, step).ready);
  }

  lemma ReturnRefines(db: Db, step: Step, s: L.State)
    requires NodeMatches(db, s) && s.clock <= step.now && (step.action.ReleaseNode? || step.action.ArchiveNode?)
    ensures NodeRefines(db, step, s)
  {
    assert L.Next(s, NodeView(db, step)).leases == ReadyLeases(Next(db, step).ready);
  }

  lemma OtherRefines(db: Db, step: Step, s: L.State)
    requires NodeMatches(db, s) && s.clock <= step.now && NodeView(db, step).action == L.Other
    requires !step.action.EnqueueNode? && !step.action.ReleaseNode?
    ensures NodeRefines(db, step, s)
  {
    assert s.leases == ReadyLeases(Next(db, step).ready);
  }

  lemma NodeStepRefines(db: Db, step: Step, s: L.State)
    requires Stored(db) && NodeMatches(db, s) && s.clock <= step.now
    ensures NodeRefines(db, step, s)
  {
    match step.action
    case EnqueueNode(_, _, _, _) => EnqueueRefines(db, step, s);
    case ClaimNodes(_, _, _, _) => GrantRefines(db, step, s);
    case ClaimNode(_, _, _) => GrantRefines(db, step, s);
    case ReleaseNode(_, _) => ReturnRefines(db, step, s);
    case ArchiveNode(_) => ReturnRefines(db, step, s);
    case _ => OtherRefines(db, step, s);
  }

  ghost predicate RunRefines(db: Db, step: Step, s: L.State) {
    var t := L.Next(s, RunView(db, step));
    && L.Legal(s, RunView(db, step))
    && t.leases == RunLeases(Next(db, step).runs) && t.clock == step.now
    && forall id <- t.used :: id < Next(db, step).nextRun
  }

  lemma RunGrantRefines(db: Db, step: Step, s: L.State)
    requires s.clock <= step.now && (forall id <- s.used :: id < db.nextRun) && s.leases == RunLeases(db.runs)
    requires step.action.ClaimRuns?
    ensures RunRefines(db, step, s)
  {
    assert L.Next(s, RunView(db, step)).leases == RunLeases(Next(db, step).runs);
  }

  lemma {:induction false} RunStepRefines(db: Db, step: Step, s: L.State)
    requires s.clock <= step.now && (forall id <- s.used :: id < db.nextRun) && s.leases == RunLeases(db.runs)
    ensures RunRefines(db, step, s)
  {
    if step.action.ClaimRuns? { RunGrantRefines(db, step, s); }
  }

  /**
   Two different schedulers never both hold an unexpired, unreleased grant of one ready node, in any
   run on a nondecreasing clock. Its claim columns are the protocol's.
   */
  lemma {:induction false} NodeHoldersExclude(states: seq<Db>, steps: seq<Step>, start: int, k: nat)
    requires Run(states, steps) && ClockFrom(steps, start) && k < |states|
    ensures var s := NodeHistory(states, steps, start, k);
            && L.Exclusive(s) && L.Backed(s) && NodeMatches(states[k], s)
            && s.clock == (if k == 0 then start else steps[k - 1].now)
  {
    if k > 0 {
      NodeHoldersExclude(states, steps, start, k - 1);
      RunKeeps(states, steps, k - 1);
      var s := NodeHistory(states, steps, start, k - 1);
      NodeStepRefines(states[k - 1], steps[k - 1], s);
      L.StepKeeps(s, NodeView(states[k - 1], steps[k - 1]));
    }
  }

  /** The same for scheduler claims on workflow runs, with renewals. */
  lemma {:induction false} RunHoldersExclude(states: seq<Db>, steps: seq<Step>, start: int, k: nat)
    requires Run(states, steps) && ClockFrom(steps, start) && k < |states|
    ensures var s := RunHistory(states, steps, start, k);
            && L.Exclusive(s) && L.Backed(s) && s.leases == RunLeases(states[k].runs)
            && (forall id <- s.used :: id < states[k].nextRun)
            && s.clock == (if k == 0 then start else steps[k - 1].now)
  {
    if k > 0 {
      RunHoldersExclude(states, steps, start, k - 1);
      var s := RunHistory(states, steps, start, k - 1);
      RunStepRefines(states[k - 1], steps[k - 1], s);
      L.StepKeeps(s, RunView(states[k - 1], steps[k - 1]));
    }
  }

  /** A grant to another scheduler waits for the previous holder's deadline, or for its release. */
  lemma NextSchedulerWaits(
      states: seq<Db>, steps: seq<Step>, start: int, k: nat, id: nat, holder: L.Owner, who: L.Owner)
    requires Run(states, steps) && ClockFrom(steps, start) && k < |steps| && holder != who
    requires var a := steps[k].action; (a.ClaimNodes? || a.ClaimNode?) && a.who == who
    requires id in GrantedNodes(states[k], steps[k])
    requires (id, holder) in NodeHistory(states, steps, start, k).beliefs
    ensures NodeHistory(states, steps, start, k).beliefs[(id, holder)] <= steps[k].now
  {
    NodeHoldersExclude(states, steps, start, k);
    RunKeeps(states, steps, k);
    var s, step := NodeHistory(states, steps, start, k), steps[k];
    NodeStepRefines(states[k], step, s);
    L.NextHolderWaits(s, step.now, GrantedNodes(states[k], step), who, step.action.until, id, holder);
  }

  // ---- order ----

  predicate Ended(lease: L.Lease, now: int) {
    lease.until.None? || lease.until.value <= now
  }

  /**
   Without skipped locks a batch claim grants the `max(limit, 1)` claimable rows that come first by
   (ready_at, id); a claimable row it passes over is behind a full batch of others, and a due pending
   row is claimable by anybody again once its lease has ended.
   */
  lemma ClaimTakesFirst(ready: map<nat, ReadyNode>, who: L.Owner, now: int, limit: int)
    ensures var pool, picked := ClaimPool(ready, who, now), ClaimPick(ready, who, now, limit, {});
            && IsFirst(pool, ReadyOrder(ready), AtLeastOne(limit), picked)
            && (forall chosen :: IsFirst(pool, ReadyOrder(ready), AtLeastOne(limit), chosen) ==> chosen == picked)
            && (forall id :: id in pool && id !in picked ==> |picked| == AtLeastOne(limit))
            && forall id <- ready :: Due(ready[id], now) && Ended(ready[id].lease, now) ==> id in pool
  {
    var pool, picked := ClaimPool(ready, who, now), ClaimPick(ready, who, now, limit, {});
    assert pool - {} == pool;
    FirstIsFirst(pool, ReadyOrder(ready), AtLeastOne(limit));
    forall chosen | IsFirst(pool, ReadyOrder(ready), AtLeastOne(limit), chosen) ensures chosen == picked {
      FirstIsUnique(pool, ReadyOrder(ready), AtLeastOne(limit), chosen);
    }
    if |picked| == |pool| { SubsetOfSameSize(picked, pool); }
  }

  /**
   A batch in the columns of the table: every picked row is pending and due, and its claim is unset,
   ended or the claimant's own.
   */
  lemma PickInColumns(ready: map<nat, ReadyNode>, who: L.Owner, now: int, limit: int, skipped: set<nat>)
    ensures var picked := ClaimPick(ready, who, now, limit, skipped);
            && |picked| <= (if limit < 1 then 1 else limit)
            && forall id <- picked ::
                 && id in ready && id !in skipped && ready[id].completedAt.None? && ready[id].readyAt <= now
                 && (ready[id].lease.until.None? || ready[id].lease.until.value <= now
                     || ready[id].lease.owner == Some(who))
  {
    FirstIsFirst(ClaimPool(ready, who, now) - skipped, ReadyOrder(ready), AtLeastOne(limit));
  }

  /** Another such row, if it is not skipped, comes after each picked one by (ready_at, id), and the batch is full. */
  lemma PickLeftOut(ready: map<nat, ReadyNode>, who: L.Owner, now: int, limit: int, skipped: set<nat>, id: nat)
    requires id in ready && id !in skipped && ready[id].completedAt.None? && ready[id].readyAt <= now
                 && (ready[id].lease.until.None? || ready[id].lease.until.value <= now
                     || ready[id].lease.owner == Some(who))
    requires id !in ClaimPick(ready, who, now, limit, skipped)
    ensures var picked := ClaimPick(ready, who, now, limit, skipped);
            && |picked| == (if limit < 1 then 1 else limit)
            && forall p <- picked ::
                 && p in ready
                 && (ready[p].readyAt < ready[id].readyAt || (ready[p].readyAt == ready[id].readyAt && p < id))
  {
    LeftOutIsLater(ClaimPool(ready, who, now) - skipped, ReadyOrder(ready), AtLeastOne(limit), id);
  }

  /** A scheduler's batch: runs of a requested status whose claim is unset, ended or the claimant's own. */
  lemma RunPickInColumns(
      runs: map<nat, WorkflowRun>, statuses: set<WorkflowStatus>, who: L.Owner, now: int, limit: int,
      skipped: set<nat>)
    ensures var picked := RunPick(runs, statuses, who, now, limit, skipped);
            && |picked| <= (if limit < 1 then 1 else limit)
            && forall id <- picked ::
                 && id in runs && id !in skipped && runs[id].status in statuses
                 && (runs[id].lease.until.None? || runs[id].lease.until.value <= now
                     || runs[id].lease.owner == Some(who))
  {
    FirstIsFirst(RunPool(runs, statuses, who, now) - skipped, RunOrder(runs), AtLeastOne(limit));
  }

  /** Another such run comes after each picked one by (created_at, id), and the batch is full. */
  lemma RunPickLeftOut(
      runs: map<nat, WorkflowRun>, statuses: set<WorkflowStatus>, who: L.Owner, now: int, limit: int,
      skipped: set<nat>, id: nat)
    requires id in runs && id !in skipped && runs[id].status in statuses
                 && (runs[id].lease.until.None? || runs[id].lease.until.value <= now
                     || runs[id].lease.owner == Some(who))
    requires id !in RunPick(runs, statuses, who, now, limit, skipped)
    ensures var picked := RunPick(runs, statuses, who, now, limit, skipped);
            && |picked| == (if limit < 1 then 1 else limit)
            && forall p <- picked ::
                 && p in runs
                 && (runs[p].createdAt < runs[id].createdAt || (runs[p].createdAt == runs[id].createdAt && p < id))
  {
    LeftOutIsLater(RunPool(runs, statuses, who, now) - skipped, RunOrder(runs), AtLeastOne(limit), id);
  }

  /** An announcement takes rows, due or not, under no live claim and no live announcement, whoever made it. */
  lemma AnnouncePickInColumns(ready: map<nat, ReadyNode>, now: int, limit: int, skipped: set<nat>)
    ensures var picked := AnnouncePick(ready, now, limit, skipped);
            && |picked| <= (if limit < 1 then 1 else limit)
            && forall id <- picked ::
                 && id in ready && id !in skipped && ready[id].completedAt.None?
                 && (ready[id].lease.until.None? || ready[id].lease.until.value <= now)
                 && (ready[id].announcedUntil.None? || ready[id].announcedUntil.value <= now)
  {
    FirstIsFirst(AnnouncePool(ready, now) - skipped, ReadyOrder(ready), AtLeastOne(limit));
  }

  /** Another such row comes after each announced one by (ready_at, id), and the batch is full. */
  lemma AnnouncePickLeftOut(ready: map<nat, ReadyNode>, now: int, limit: int, skipped: set<nat>, id: nat)
    requires id in ready && id !in skipped && ready[id].completedAt.None?
                 && (ready[id].lease.until.None? || ready[id].lease.until.value <= now)
                 && (ready[id].announcedUntil.None? || ready[id].announcedUntil.value <= now)
    requires id !in AnnouncePick(ready, now, limit, skipped)
    ensures var picked := AnnouncePick(ready, now, limit, skipped);
            && |picked| == (if limit < 1 then 1 else limit)
            && forall p <- picked ::
                 && p in ready
                 && (ready[p].readyAt < ready[id].readyAt || (ready[p].readyAt == ready[id].readyAt && p < id))
  {
    LeftOutIsLater(AnnouncePool(ready, now) - skipped, ReadyOrder(ready), AtLeastOne(limit), id);
  }

  lemma AnnouncePassesOver(ready: map<nat, ReadyNode>, now: int, limit: int, skipped: set<nat>)
    ensures var picked := AnnouncePick(ready, now, limit, skipped);
            forall id <- ready ::
              && id !in picked && id !in skipped && ready[id].completedAt.None?
              && (ready[id].lease.until.None? || ready[id].lease.until.value <= now)
              && (ready[id].announcedUntil.None? || ready[id].announcedUntil.value <= now)
              ==>
              && |picked| == (if limit < 1 then 1 else limit)
              && forall p <- picked ::
                   && p in ready
                   && (ready[p].readyAt < ready[id].readyAt || (ready[p].readyAt == ready[id].readyAt && p < id))
  {
    var picked := AnnouncePick(ready, now, limit, skipped);
    forall id | id in ready && id !in picked && id !in skipped && ready[id].completedAt.None?
                && (ready[id].lease.until.None? || ready[id].lease.until.value <= now)
                && (ready[id].announcedUntil.None? || ready[id].announcedUntil.value <= now)
      ensures |picked| == (if limit < 1 then 1 else limit)
      ensures forall p <- picked ::
                && p in ready
                && (ready[p].readyAt < ready[id].readyAt || (ready[p].readyAt == ready[id].readyAt && p < id))
    {
      AnnouncePickLeftOut(ready, now, limit, skipped, id);
    }
  }

  /** What an announcement writes: a lease of a second at least, from the due time on if that is still to come. */
  ghost predicate AnnouncedAs(was: ReadyNode, row: ReadyNode, picked: bool, now: int, lease: int) {
    row == if picked then was.(announcedUntil := Some(Max(was.readyAt, now) + Max(lease, 1)), updatedAt := now) else was
  }

  lemma AnnounceRowsInColumns(ready: map<nat, ReadyNode>, picked: set<nat>, now: int, lease: int)
    requires picked <= ready.Keys
    ensures var after := AnnounceRows(ready, picked, now, lease);
            && after.Keys == ready.Keys
            && forall id <- ready :: AnnouncedAs(ready[id], after[id], id in picked, now, lease)
  {
  }

  // ---- draining ----

  /** The holder completes the rows it was granted, one statement each. */
  function CompleteEach(ready: map<nat, ReadyNode>, ids: seq<nat>, who: L.Owner, now: int): map<nat, ReadyNode> {
    if ids == [] then ready else CompleteEach(CompleteRow(ready, ids[0], who, now), ids[1..], who, now)
  }

  ghost predicate Lists(ids: seq<nat>, picked: set<nat>) {
    forall id :: id in ids <==> id in picked
  }

  lemma {:induction false} CompleteEachCompletes(
      ready: map<nat, ReadyNode>, ids: seq<nat>, who: L.Owner, now: int, id: nat)
    requires forall x <- ids :: x in ready && ready[x].lease.owner == Some(who)
    ensures var after := CompleteEach(ready, ids, who, now);
            && after.Keys == ready.Keys
            && (id in ready ==> after[id] == if id in ids then Completed(ready[id], now) else ready[id])
    decreases |ids|
  {
    if ids != [] {
      CompleteEachCompletes(CompleteRow(ready, ids[0], who, now), ids[1..], who, now, id);
      assert ids == [ids[0]] + ids[1..];
    }
  }

  /** One claim-then-complete round of scheduler `who`. */
  ghost function Round(ready: map<nat, ReadyNode>, who: L.Owner, now: int, until: int, limit: int)
    : map<nat, ReadyNode>
  {
    var picked := ClaimPick(ready, who, now, limit, {});
    CompleteRows(ClaimRows(ready, picked, who, now, until), picked, now)
  }

  /** A round is what claiming a batch and then completing each granted row, in any order, does. */
  lemma RoundIsClaimThenComplete(
      ready: map<nat, ReadyNode>, who: L.Owner, now: int, until: int, limit: int, ids: seq<nat>)
    requires Lists(ids, ClaimPick(ready, who, now, limit, {}))
    ensures var picked := ClaimPick(ready, who, now, limit, {});
            CompleteEach(ClaimRows(ready, picked, who, now, until), ids, who, now)
            == Round(ready, who, now, until, limit)
  {
    var picked := ClaimPick(ready, who, now, limit, {});
    var claimed := ClaimRows(ready, picked, who, now, until);
    forall id ensures CompleteEach(claimed, ids, who, now).Keys == claimed.Keys
    ensures id in claimed ==> CompleteEach(claimed, ids, who, now)[id] == CompleteRows(claimed, picked, now)[id] {
      CompleteEachCompletes(claimed, ids, who, now, id);
    }
  }

  ghost function Rounds(ready: map<nat, ReadyNode>, who: L.Owner, now: int, until: int, limit: int, n: nat)
    : map<nat, ReadyNode>
  {
    if n == 0 then ready else Rounds(Round(ready, who, now, until, limit), who, now, until, limit, n - 1)
  }

  function Claimables(ready: map<nat, ReadyNode>, who: L.Owner, now: int): nat {
    |ClaimPool(ready, who, now)|
  }

  lemma RoundShrinksPool(ready: map<nat, ReadyNode>, who: L.Owner, now: int, until: int, limit: int)
    ensures Claimables(Round(ready, who, now, until, limit), who, now)
            == Later(0, Claimables(ready, who, now) - AtLeastOne(limit))
  {
    var pool, picked := ClaimPool(ready, who, now), ClaimPick(ready, who, now, limit, {});
    ClaimTakesFirst(ready, who, now, limit);
    assert ClaimPool(Round(ready, who, now, until, limit), who, now) == pool - picked;
  }

  /** `n` batches, added up. */
  function Batches(n: nat, batch: nat): nat {
    if n == 0 then 0 else Batches(n - 1, batch) + batch
  }

  lemma BatchesMultiply(n: nat, batch: nat)
    ensures Batches(n, batch) == n * batch
  {
  }

  /** `k` claimable rows after one batch and then `taken` more rows are gone. */
  lemma BatchThenRest(k: nat, batch: nat, taken: nat)
    ensures Later(0, Later(0, k - batch) - taken) == Later(0, k - (taken + batch))
  {
  }

  lemma {:induction false} RoundsTake(
      ready: map<nat, ReadyNode>, who: L.Owner, now: int, until: int, limit: int, n: nat)
    ensures Claimables(Rounds(ready, who, now, until, limit, n), who, now)
            == Later(0, Claimables(ready, who, now) - Batches(n, AtLeastOne(limit)))
    decreases n
  {
    if n > 0 {
      var after, batch := Round(ready, who, now, until, limit), AtLeastOne(limit);
      RoundsTake(after, who, now, until, limit, n - 1);
      RoundShrinksPool(ready, who, now, until, limit);
      BatchThenRest(Claimables(ready, who, now), batch, Batches(n - 1, batch));
    }
  }

  /**
   With no new enqueues, n rounds complete min(k, n * L) of the k claimable due rows, where L is the
   batch limit: exactly the ceiling of k / L rounds empty the queue.
   */
  lemma RoundsDrain(ready: map<nat, ReadyNode>, who: L.Owner, now: int, until: int, limit: int, n: nat)
    ensures var k := Claimables(ready, who, now);
            var after := Rounds(ready, who, now, until, limit, n);
            && Claimables(after, who, now) == Later(0, k - n * AtLeastOne(limit))
            && (ClaimPool(after, who, now) == {} <==> n * AtLeastOne(limit) >= k)
  {
    RoundsTake(ready, who, now, until, limit, n);
    BatchesMultiply(n, AtLeastOne(limit));
  }

  // ---- dialects ----

  /** MySQL's second statement, on each claimable table. */
  function NodesReadBack(ready: map<nat, ReadyNode>, who: L.Owner, until: int): set<nat> {
    set id | id in ready && ready[id].lease == L.Lease(Some(who), Some(until))
  }

  function RunsReadBack(runs: map<nat, WorkflowRun>, who: L.Owner, until: int): set<nat> {
    set id | id in runs && runs[id].lease == L.Lease(Some(who), Some(until))
  }

  /**
   The read-back of a batch claim returns the granted rows exactly when every ready node that
   already carried (who, until), completed ones included, is granted again.
   */
  lemma NodeReadBackIsReturning(
      ready: map<nat, ReadyNode>, who: L.Owner, now: int, until: int, limit: int, skipped: set<nat>)
    ensures var picked := ClaimPick(ready, who, now, limit, skipped);
            NodesReadBack(ClaimRows(ready, picked, who, now, until), who, until) == picked
            <==> NodesReadBack(ready, who, until) <= picked
  {
    var picked := ClaimPick(ready, who, now, limit, skipped);
    L.ReadBackIsReturning(ReadyLeases(ready), picked, who, until);
    assert L.ReadBack(ReadyLeases(ready), who, until) == NodesReadBack(ready, who, until);
    assert ReadyLeases(ClaimRows(ready, picked, who, now, until)) == L.Granted(ReadyLeases(ready), picked, who, until);
    assert L.ReadBack(ReadyLeases(ClaimRows(ready, picked, who, now, until)), who, until)
        == NodesReadBack(ClaimRows(ready, picked, who, now, until), who, until);
  }

  lemma RunReadBackIsReturning(
      runs: map<nat, WorkflowRun>, statuses: set<WorkflowStatus>, who: L.Owner, now: int, until: int, limit: int,
      skipped: set<nat>)
    ensures var picked := RunPick(runs, statuses, who, now, limit, skipped);
            RunsReadBack(ClaimRunRows(runs, picked, who, until), who, until) == picked
            <==> RunsReadBack(runs, who, until) <= picked
  {
    var picked := RunPick(runs, statuses, who, now, limit, skipped);
    L.ReadBackIsReturning(RunLeases(runs), picked, who, until);
    assert L.ReadBack(RunLeases(runs), who, until) == RunsReadBack(runs, who, until);
    assert RunLeases(ClaimRunRows(runs, picked, who, until)) == L.Granted(RunLeases(runs), picked, who, until);
    assert L.ReadBack(RunLeases(ClaimRunRows(runs, picked, who, until)), who, until)
        == RunsReadBack(ClaimRunRows(runs, picked, who, until), who, until);
  }

  lemma Extend(states: seq<Db>, steps: seq<Step>, step: Step, t: Db)
    requires Run(states, steps) && Enabled(states[|steps|], step) && t == Next(states[|steps|], step)
    ensures Run(states + [t], steps + [step])
  {
  }

  /**
   The condition can fail: a completed ready node keeps its claim columns, so a scheduler that claims
   again within the same second, with the same deadline, reads the completed row back.
   */
  lemma ReadBackCanReturnCompleted(who: L.Owner, now: int, until: int, limit: int)
    returns (states: seq<Db>, steps: seq<Step>)
    ensures Run(states, steps)
    ensures var ready := states[|steps|].ready;
            var picked := ClaimPick(ready, who, now, limit, {});
            && 0 in ready && !Pending(ready[0]) && 0 !in picked
            && 0 in NodesReadBack(ClaimRows(ready, picked, who, now, until), who, until)
  {
    var row := NewReadyNode(0, 0, "n", now, now);
    var queued := EMPTY.(ready := map[0 := row], events := {0}, nextReady := 1);
    var claimed := queued.(ready := map[0 := Claimed(row, who, now, until)]);
    var done := queued.(ready := map[0 := Completed(Claimed(row, who, now, until), now)]);
    var enqueue, claim, complete :=
      At(now, EnqueueNode(0, 0, "n", now)), At(now, ClaimNode(0, who, until)), At(now, CompleteNode(0, who));
    Extend([EMPTY], [], enqueue, queued);
    assert GrantedNodes(queued, claim) == {0};
    Extend([EMPTY] + [queued], [enqueue], claim, claimed);
    Extend([EMPTY] + [queued] + [claimed], [enqueue] + [claim], complete, done);
    states := [EMPTY] + [queued] + [claimed] + [done];
    steps := [enqueue] + [claim] + [complete];
  }

  // ---- terminal runs ----

  /** The backstop settles only pending rows of terminal runs, and each pass takes a full batch. */
  lemma SettleTerminalDrains(db: Db, now: int, limit: int, chosen: set<nat>)
    requires Enabled(db, At(now, SettleTerminal(limit, chosen)))
    ensures var t := Next(db, At(now, SettleTerminal(limit, chosen)));
            && |Doomed(t)| == |Doomed(db)| - Min(AtLeastOne(limit), |Doomed(db)|)
            && forall id <- db.ready ::
                 id in t.ready && (t.ready[id] != db.ready[id] ==> id in Doomed(db) && id !in Doomed(t))
  {
    var t := Next(db, At(now, SettleTerminal(limit, chosen)));
    assert Doomed(t) == Doomed(db) - chosen;
  }
}
