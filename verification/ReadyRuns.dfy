/**
 What every run of the work queue keeps: one due generation per (run, node), completion that is
 never undone, exact attempt counts and a bound on announcements.
 */
module ReadyRuns {
  import opened Wrappers
  import opened Selection
  import opened Orchestration

  /** The ready nodes a step announces. */
  ghost function AnnouncedNodes(db: Db, step: Step): set<nat> {
    match step.action
    case Announce(_, limit, skipped) => AnnouncePick(db.ready, step.now, limit, skipped)
    case _ => {}
  }

  // ---- one step, one row ----

  /** Everything a step may do to a stored ready node. */
  ghost predicate RowMoves(db: Db, step: Step, r: ReadyNode, id: nat, r': ReadyNode) {
    && r'.sourceEvent == r.sourceEvent && r'.run == r.run && r'.node == r.node
    && r'.readyAt == r.readyAt && r'.createdAt == r.createdAt
    && (Pending(r') ==> Pending(r))
    && r'.attempts == r.attempts + (if id in GrantedNodes(db, step) then 1 else 0)
    && r'.announcedUntil ==
       if id in AnnouncedNodes(db, step) then Announced(r, step.now, step.action.lease).announcedUntil
       else r.announcedUntil
  }

  lemma {:induction false} StepMovesRow(db: Db, step: Step, id: nat)
    requires Enabled(db, step) && id in db.ready && id < db.nextReady
    ensures var t := Next(db, step);
            if id in t.ready then RowMoves(db, step, db.ready[id], id, t.ready[id])
            else !Pending(db.ready[id]) && step.action == ArchiveNode(id)
  {
  }

  /** A step adds at most the row of a successful enqueue. */
  lemma {:induction false} StepAddsRow(db: Db, step: Step, id: nat)
    requires id !in db.ready && id in Next(db, step).ready
    ensures step.action.EnqueueNode? && id == db.nextReady
    ensures var a := step.action;
            && Enqueue(db, a.event, a.run, a.node, a.readyAt, step.now).1 == Some(id)
            && Next(db, step).ready[id] == NewReadyNode(a.event, a.run, a.node, a.readyAt, step.now)
  {
  }

  // ---- generations ----

  ghost predicate Stored(db: Db) {
    forall id <- db.ready :: id < db.nextReady && db.ready[id].sourceEvent in db.events
  }

  /**
   Of two pending rows of one (run, node), the older is not due until after the newer was created.
   */
  ghost predicate Generations(db: Db) {
    forall e, l | e in db.ready && l in db.ready && e < l
      && Same(db.ready[l], db.ready[e].run, db.ready[e].node)
      && Pending(db.ready[e]) && Pending(db.ready[l]) ::
      db.ready[e].readyAt > db.ready[l].createdAt
  }

  lemma {:induction false} StepKeepsStored(db: Db, step: Step)
    requires Stored(db) && Enabled(db, step)
    ensures Stored(Next(db, step))
  {
    var t := Next(db, step);
    forall id | id in t.ready ensures id < t.nextReady && t.ready[id].sourceEvent in t.events {
      if id in db.ready { StepMovesRow(db, step, id); } else { StepAddsRow(db, step, id); }
    }
  }

  lemma {:induction false} StepKeepsGenerations(db: Db, step: Step)
    requires Stored(db) && Generations(db) && Enabled(db, step)
    ensures Generations(Next(db, step))
  {
    var t := Next(db, step);
    forall e, l | e in t.ready && l in t.ready && e < l
      && Same(t.ready[l], t.ready[e].run, t.ready[e].node)
      && Pending(t.ready[e]) && Pending(t.ready[l])
      ensures t.ready[e].readyAt > t.ready[l].createdAt
    {
      if e in db.ready {
        StepMovesRow(db, step, e);
        if l in db.ready {
          StepMovesRow(db, step, l);
        } else {
          StepAddsRow(db, step, l);
        }
      } else {
        StepAddsRow(db, step, e);
        if l !in db.ready { StepAddsRow(db, step, l); }
      }
    }
  }

  lemma {:induction false} RunKeeps(states: seq<Db>, steps: seq<Step>, k: nat)
    requires Run(states, steps) && k < |states|
    ensures Stored(states[k]) && Generations(states[k])
  {
    if k > 0 {
      RunKeeps(states, steps, k - 1);
      StepKeepsStored(states[k - 1], steps[k - 1]);
      StepKeepsGenerations(states[k - 1], steps[k - 1]);
    }
  }

  ghost predicate Due(r: ReadyNode, now: int) {
    Pending(r) && r.readyAt <= now
  }

  /** The columns of a row just enqueued: due when asked for, pending, claimed and announced by nobody. */
  ghost predicate FreshRow(r: ReadyNode, event: nat, run: nat, node: string, readyAt: int, now: int) {
    && r.sourceEvent == event && r.run == run && r.node == node && r.readyAt == readyAt
    && r.status == Queued && r.attempts == 0 && r.lease.owner.None? && r.lease.until.None?
    && r.completedAt.None? && r.announcedUntil.None? && r.createdAt == now && r.updatedAt == now
  }

  /**
   In every reachable state enqueue returns a row exactly when its event is new, and right after it
   the pair has no due pending row but the new one. A row that is due at once is claimable by anybody.
   */
  lemma EnqueueLeavesOneDue(
      states: seq<Db>, steps: seq<Step>, k: nat, event: nat, run: nat, node: string, readyAt: int, now: int)
    requires Run(states, steps) && k < |states|
    ensures var (t, row) := Enqueue(states[k], event, run, node, readyAt, now);
            && (row.Some? <==> event !in states[k].events)
            && (row.None? ==> t == states[k])
            && (row.Some? ==>
                  && row.value !in states[k].ready && row.value in t.ready
                  && FreshRow(t.ready[row.value], event, run, node, readyAt, now)
                  && (readyAt <= now ==> forall who :: row.value in ClaimPool(t.ready, who, now))
                  && forall id <- t.ready :: Same(t.ready[id], run, node) && Due(t.ready[id], now) ==> id == row.value)
  {
    RunKeeps(states, steps, k);
  }

  ghost predicate OnePending(ready: map<nat, ReadyNode>, run: nat, node: string) {
    forall a <- ready, b <- ready ::
      Same(ready[a], run, node) && Same(ready[b], run, node) && Pending(ready[a]) && Pending(ready[b]) ==> a == b
  }

  /**
   More than one row can still be pending: an enqueue leaves exactly one if and only if no row of
   the pair was waiting for a later time.
   */
  lemma OnePendingIffNoneFuture(
      states: seq<Db>, steps: seq<Step>, k: nat, event: nat, run: nat, node: string, readyAt: int, now: int)
    requires Run(states, steps) && k < |states| && event !in states[k].events
    ensures var before := states[k].ready;
            OnePending(Enqueue(states[k], event, run, node, readyAt, now).0.ready, run, node)
            <==> forall id <- before :: Same(before[id], run, node) && Pending(before[id]) ==> before[id].readyAt <= now
  {
    RunKeeps(states, steps, k);
    var db := states[k];
    var (t, row) := Enqueue(db, event, run, node, readyAt, now);
    if id :| id in db.ready && Same(db.ready[id], run, node) && Pending(db.ready[id]) && db.ready[id].readyAt > now {
      assert id in t.ready && row.value in t.ready && id != row.value;
    }
  }

  ghost predicate Retired(db: Db, id: nat) {
    id < db.nextReady && (id in db.ready ==> !Pending(db.ready[id]))
  }

  lemma {:induction false} StepKeepsRetired(db: Db, step: Step, id: nat)
    requires Stored(db) && Enabled(db, step) && Retired(db, id)
    ensures Retired(Next(db, step), id)
  {
    if id in db.ready {
      StepMovesRow(db, step, id);
    } else if id in Next(db, step).ready {
      StepAddsRow(db, step, id);
    }
  }

  /** A completed row stays completed until the archiver deletes it, and its id is never reused. */
  lemma {:induction false} CompletionIsFinal(states: seq<Db>, steps: seq<Step>, i: nat, j: nat, id: nat)
    requires Run(states, steps) && i <= j < |states|
    requires id in states[i].ready && !Pending(states[i].ready[id])
    ensures id in states[j].ready ==> !Pending(states[j].ready[id])
  {
    RunKeeps(states, steps, i);
    StaysRetired(states, steps, i, j, id);
  }

  lemma {:induction false} StaysRetired(states: seq<Db>, steps: seq<Step>, i: nat, j: nat, id: nat)
    requires Run(states, steps) && i <= j < |states| && Retired(states[i], id)
    ensures Retired(states[j], id)
    decreases j
  {
    if i < j {
      StaysRetired(states, steps, i, j - 1, id);
      RunKeeps(states, steps, j - 1);
      StepKeepsRetired(states[j - 1], steps[j - 1], id);
    }
  }

  // ---- attempts ----

  /** How many of the first `k` steps granted row `id`. */
  ghost function Grants(states: seq<Db>, steps: seq<Step>, k: nat, id: nat): nat
    requires k <= |steps| && |states| == |steps| + 1
  {
    if k == 0 then 0
    else Grants(states, steps, k - 1, id) + if id in GrantedNodes(states[k - 1], steps[k - 1]) then 1 else 0
  }

  lemma {:induction false} GrantedRowsExist(db: Db, step: Step)
    ensures GrantedNodes(db, step) <= db.ready.Keys && AnnouncedNodes(db, step) <= db.ready.Keys
  {
  }

  lemma {:induction false} AttemptsMove(db: Db, step: Step, id: nat)
    requires Stored(db) && Enabled(db, step)
    ensures var t := Next(db, step);
            && db.nextReady <= t.nextReady
            && (id in GrantedNodes(db, step) ==> id in db.ready && id < db.nextReady)
            && (id in t.ready && id in db.ready ==>
                  t.ready[id].attempts == db.ready[id].attempts + if id in GrantedNodes(db, step) then 1 else 0)
            && (id in t.ready && id !in db.ready ==> id == db.nextReady && t.ready[id].attempts == 0)
  {
    GrantedRowsExist(db, step);
    if id in db.ready {
      StepMovesRow(db, step, id);
    } else if id in Next(db, step).ready {
      StepAddsRow(db, step, id);
    }
  }

  /** A row's `attempts` is the number of times it has been granted over the whole run. */
  lemma {:induction false} AttemptsCountGrants(states: seq<Db>, steps: seq<Step>, k: nat, id: nat)
    requires Run(states, steps) && k < |states|
    ensures id in states[k].ready ==> states[k].ready[id].attempts == Grants(states, steps, k, id)
    ensures id >= states[k].nextReady ==> Grants(states, steps, k, id) == 0
    decreases k
  {
    if k > 0 {
      AttemptsCountGrants(states, steps, k - 1, id);
      RunKeeps(states, steps, k - 1);
      AttemptsMove(states[k - 1], steps[k - 1], id);
    }
  }

  // ---- announcements ----

  /** When row `id` was announced during the first `k` steps. */
  ghost function AnnounceTimes(states: seq<Db>, steps: seq<Step>, k: nat, id: nat): seq<int>
    requires k <= |steps| && |states| == |steps| + 1
  {
    if k == 0 then []
    else
      AnnounceTimes(states, steps, k - 1, id)
      + if id in AnnouncedNodes(states[k - 1], steps[k - 1]) then [steps[k - 1].now] else []
  }

  ghost predicate FixedLease(steps: seq<Step>, lease: int) {
    forall step <- steps :: step.action.Announce? ==> step.action.lease == lease
  }

  function Later(a: int, b: int): int {
    if a > b then a else b
  }

  /** The spacing of a row's announcements, and the stored lease that enforces it. */
  ghost predicate Spaced(db: Db, times: seq<int>, id: nat, lease: nat) {
    && (id in db.ready ==>
          var r := db.ready[id];
          && (times == [] <==> r.announcedUntil.None?)
          && (times != [] ==> r.announcedUntil == Some(Later(times[|times| - 1], r.readyAt) + lease))
          && forall i :: 0 < i < |times| ==> times[i] >= Later(times[i - 1], r.readyAt) + lease)
    && (id >= db.nextReady ==> times == [])
  }

  lemma {:induction false} StepKeepsSpaced(db: Db, step: Step, times: seq<int>, id: nat, lease: int)
    requires Stored(db) && Enabled(db, step) && Spaced(db, times, id, AtLeastOne(lease))
    requires step.action.Announce? ==> step.action.lease == lease
    ensures Spaced(Next(db, step), times + if id in AnnouncedNodes(db, step) then [step.now] else [],
                   id, AtLeastOne(lease))
  {
    GrantedRowsExist(db, step);
    if id in db.ready {
      StepMovesRow(db, step, id);
      if id in AnnouncedNodes(db, step) { assert Announceable(db.ready[id], step.now); }
    } else if id in Next(db, step).ready {
      StepAddsRow(db, step, id);
    }
  }

  lemma {:induction false} AnnouncementsSpaced(states: seq<Db>, steps: seq<Step>, k: nat, id: nat, lease: int)
    requires Run(states, steps) && k < |states| && FixedLease(steps, lease)
    ensures Spaced(states[k], AnnounceTimes(states, steps, k, id), id, AtLeastOne(lease))
    decreases k
  {
    if k > 0 {
      AnnouncementsSpaced(states, steps, k - 1, id, lease);
      RunKeeps(states, steps, k - 1);
      assert steps[k - 1] in steps;
      StepKeepsSpaced(states[k - 1], steps[k - 1], AnnounceTimes(states, steps, k - 1, id), id, lease);
    }
  }

  /** Spacing adds up. */
  lemma {:induction false} SpacingAddsUp(times: seq<int>, due: int, lease: nat, k: nat)
    requires 0 < k < |times|
    requires forall i :: 0 < i < |times| ==> times[i] >= Later(times[i - 1], due) + lease
    ensures times[k] >= Later(times[0], due) + k * lease
  {
    if k > 1 {
      SpacingAddsUp(times, due, lease, k - 1);
      assert k * lease == (k - 1) * lease + lease;
    }
  }

  /**
   With one announce lease L, the k-th announcement of a row after its first comes no earlier than
   k leases past the later of that first one and the row's due time. So a row is announced at most
   once before its due time plus a lease.
   */
  lemma AnnounceBound(states: seq<Db>, steps: seq<Step>, id: nat, lease: int, k: nat)
    requires Run(states, steps) && FixedLease(steps, lease) && id in states[|steps|].ready
    requires 0 < k < |AnnounceTimes(states, steps, |steps|, id)|
    ensures var times := AnnounceTimes(states, steps, |steps|, id);
            times[k] >= Later(times[0], states[|steps|].ready[id].readyAt) + k * AtLeastOne(lease)
  {
    AnnouncementsSpaced(states, steps, |steps|, id, lease);
    SpacingAddsUp(AnnounceTimes(states, steps, |steps|, id), states[|steps|].ready[id].readyAt, AtLeastOne(lease), k);
  }
}
