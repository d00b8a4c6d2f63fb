/**
 Exactly-once cron firing over whole runs of claims, when a batch succeeds, and what one bad trigger
 does to the rest.
 */
module TriggerRuns {
  import opened Wrappers
  import opened Selection
  import opened Triggers

  /** Reading this trigger in the loop raises no error. */
  predicate Processable(db: TriggerDb, id: nat, now: int, cron: Cron)
    requires id in db.triggers
  {
    var t := db.triggers[id];
    (t.next.Some? && InBlackout(t, now))
    || (cron(t.schedule, now).Some? && (t.next.Some? ==> t.workflow in db.workflows))
  }

  /** What a committed batch did to one selected trigger. */
  ghost predicate Advanced(db: TriggerDb, t: TriggerDb, id: nat, now: int, cron: Cron)
    requires id in db.triggers && id in t.triggers
  {
    var was, moved := db.triggers[id], t.triggers[id];
    && moved.next.Some?
    && if was.next.Some? && InBlackout(was, now) then moved.next == was.blackoutEnd
       else
         && moved.next == cron(was.schedule, now) && moved.next.value > now
         && (was.next.Some? ==>
               var at := (id, DueAt(was.next.value));
               && at !in db.firings && at in t.firings && t.firings[at].at == now
               && t.firings[at].run.Some? && db.nextRun <= t.firings[at].run.value < t.nextRun
               && t.firings[at].run.value in t.runs
               && t.runs[t.firings[at].run.value] == CronRun(id, at.1, now))
  }

  ghost predicate Selected(db: TriggerDb, order: seq<nat>, now: int) {
    && (forall i, j :: 0 <= i < j < |order| ==> order[i] != order[j])
    && forall id <- order :: id in db.triggers && Due(db.triggers[id], now)
  }

  /** Recorded firings and runs are never changed. */
  ghost predicate Grew(db: TriggerDb, t: TriggerDb) {
    && SameTriggers(db, t) && db.nextRun <= t.nextRun
    && (forall f <- db.firings :: f in t.firings && t.firings[f] == db.firings[f])
    && (forall r <- db.runs :: r in t.runs && t.runs[r] == db.runs[r])
  }

  /** In an exact state no due trigger finds its key recorded already. */
  lemma KeyIsFree(db: TriggerDb, id: nat, clock: int, now: int)
    requires Exact(db, clock) && id in db.triggers && Due(db.triggers[id], now) && db.triggers[id].next.Some?
    ensures (id, DueAt(db.triggers[id].next.value)) !in db.firings
  {
    forall key | (id, key) in db.firings ensures Fired(db, clock, id, key) {}
  }

  lemma FailsIff(db: TriggerDb, id: nat, clock: int, now: int, cron: Cron)
    requires Exact(db, clock) && id in db.triggers && Due(db.triggers[id], now)
    ensures Fails(db, id, now, cron) <==> !Processable(db, id, now, cron)
  {
    if db.triggers[id].next.Some? { KeyIsFree(db, id, clock, now); }
  }

  /** A batch commits if and only if no selected trigger raises an error. */
  lemma BatchCommitsIff(db: TriggerDb, order: seq<nat>, clock: int, now: int, cron: Cron)
    requires Exact(db, clock) && Selected(db, order, now)
    ensures Batch(db, order, now, cron).Some? <==> forall id <- order :: Processable(db, id, now, cron)
  {
    BatchInColumns(db, order, now, cron);
    forall id | id in order ensures Fails(db, id, now, cron) <==> !Processable(db, id, now, cron) {
      FailsIff(db, id, clock, now, cron);
    }
  }

  /** What a committed batch leaves behind. */
  ghost predicate AllAdvanced(db: TriggerDb, t: TriggerDb, order: seq<nat>, now: int, cron: Cron)
    requires forall id <- order :: id in db.triggers
  {
    && Grew(db, t)
    && (forall id <- order :: Advanced(db, t, id, now, cron))
    && (forall id <- db.triggers :: id !in order ==> t.triggers[id] == db.triggers[id])
    && (forall f <- t.firings :: f !in db.firings ==> f.0 in order)
  }

  lemma {:induction false} BatchKeepsExact(db: TriggerDb, order: seq<nat>, clock: int, now: int, cron: Cron)
    requires StrictlyLater(cron) && Exact(db, clock) && clock <= now && Selected(db, order, now)
    requires Batch(db, order, now, cron).Some?
    ensures Exact(Batch(db, order, now, cron).value, now)
    decreases |order|
  {
    if order == [] {
      assert forall id, key :: (id, key) in db.firings && id in db.triggers && db.triggers[id].isCron ==>
          Fired(db, clock, id, key);
    } else {
      var head, rest := order[0], order[1..];
      Behead(order);
      ProcessKeeps(db, head, clock, now, cron);
      ProcessInColumns(db, head, now, cron);
      var m := Process(db, head, now, cron).value;
      forall id | id in rest ensures id in m.triggers && Due(m.triggers[id], now) {
        assert m.triggers[id] == db.triggers[id];
      }
      BatchKeepsExact(m, rest, now, now, cron);
    }
  }

  /** A committed batch keeps the exactness invariant and advances every selected trigger. */
  lemma BatchAdvances(db: TriggerDb, order: seq<nat>, clock: int, now: int, cron: Cron)
    requires StrictlyLater(cron) && Exact(db, clock) && clock <= now && Selected(db, order, now)
    requires Batch(db, order, now, cron).Some?
    ensures Exact(Batch(db, order, now, cron).value, now)
    ensures AllAdvanced(db, Batch(db, order, now, cron).value, order, now, cron)
  {
    BatchKeepsExact(db, order, clock, now, cron);
    BatchInColumns(db, order, now, cron);
    var t := Batch(db, order, now, cron).value;
    forall id | id in order ensures Advanced(db, t, id, now, cron) {
      if db.triggers[id].next.Some? { KeyIsFree(db, id, clock, now); }
    }
    assert SameTriggers(db, t) by {
      forall id | id in db.triggers ensures t.triggers[id] == db.triggers[id].(next := t.triggers[id].next) {
        if id in order { assert Moves(db, t, id, now, cron); } else { assert id !in Ids(order); }
      }
    }
  }

  lemma SelectsDue(db: TriggerDb, now: int, limit: int, skipped: set<nat>, order: seq<nat>)
    requires Selects(db, now, limit, skipped, order)
    ensures Selected(db, order, now)
  {
    forall i, j | 0 <= i < j < |order| ensures order[i] != order[j] {
      var a, b := order[i], order[j];
      assert a in db.triggers && b in db.triggers;
    }
  }

  function Clock(steps: seq<Step>, k: nat): int
    requires k <= |steps|
  {
    if k > 0 then steps[k - 1].now else if |steps| > 0 then steps[0].now else 0
  }

  lemma {:induction false} RunIsExact(cron: Cron, states: seq<TriggerDb>, steps: seq<Step>, k: nat)
    requires StrictlyLater(cron) && Run(cron, states, steps) && k < |states|
    ensures Exact(states[k], Clock(steps, k)) && SameTriggers(states[0], states[k])
  {
    if k > 0 {
      RunIsExact(cron, states, steps, k - 1);
      StepKeeps(cron, states[k - 1], steps[k - 1], Clock(steps, k - 1));
    }
  }

  lemma StepKeeps(cron: Cron, db: TriggerDb, step: Step, clock: int)
    requires StrictlyLater(cron) && Enabled(db, step) && Exact(db, clock) && clock <= step.now
    ensures Exact(Next(db, step, cron), step.now) && Grew(db, Next(db, step, cron))
  {
    var t := Next(db, step, cron);
    match step.action
    case ClaimDueStep(order, limit, skipped) =>
      SelectsDue(db, step.now, limit, skipped, order);
      if Batch(db, order, step.now, cron).Some? {
        BatchAdvances(db, order, clock, step.now, cron);
      } else {
        assert t == db;
        assert forall id, key :: (id, key) in db.firings && id in db.triggers && db.triggers[id].isCron ==>
            Fired(db, clock, id, key);
      }
    case RecordStep(id, name) =>
      forall x, key | (x, key) in t.firings && x in t.triggers && t.triggers[x].isCron
        ensures Fired(t, step.now, x, key)
      {
        assert Fired(db, clock, x, key);
      }
  }

  /**
   Over every run of claims: each recorded firing of a cron trigger has exactly one run and each run
   exactly one firing, none was created inside the trigger's blackout window, and a set
   `next_execution` lies beyond every key the trigger has fired for.
   */
  lemma CronFiresExactlyOnce(cron: Cron, states: seq<TriggerDb>, steps: seq<Step>, k: nat)
    requires StrictlyLater(cron) && Run(cron, states, steps) && k < |states|
    ensures var db := states[k];
            && (forall id, key :: (id, key) in db.firings && id in db.triggers && db.triggers[id].isCron ==>
                  exists r :: r in db.runs && db.runs[r].trigger == id && db.runs[r].key == key)
            && (forall r <- db.runs, q <- db.runs ::
                  db.runs[r].trigger == db.runs[q].trigger && db.runs[r].key == db.runs[q].key ==> r == q)
            && (forall r <- db.runs ::
                  var run := db.runs[r];
                  && (run.trigger, run.key) in db.firings && run.trigger in states[0].triggers
                  && !InBlackout(states[0].triggers[run.trigger], run.createdAt))
            && (forall id, ts :: (id, DueAt(ts)) in db.firings && id in db.triggers && db.triggers[id].isCron ==>
                  db.triggers[id].next.Some? && ts < db.triggers[id].next.value)
  {
    RunIsExact(cron, states, steps, k);
    var db := states[k];
    forall id, key | (id, key) in db.firings && id in db.triggers && db.triggers[id].isCron
      ensures exists r :: r in db.runs && db.runs[r].trigger == id && db.runs[r].key == key
    {
      assert Fired(db, Clock(steps, k), id, key);
    }
    forall r | r in db.runs
      ensures db.runs[r].trigger in states[0].triggers
      ensures !InBlackout(states[0].triggers[db.runs[r].trigger], db.runs[r].createdAt)
    {
      assert Fired(db, Clock(steps, k), db.runs[r].trigger, db.runs[r].key);
    }
    forall id, ts | (id, DueAt(ts)) in db.firings && id in db.triggers && db.triggers[id].isCron
      ensures db.triggers[id].next.Some? && ts < db.triggers[id].next.value
    {
      assert Fired(db, Clock(steps, k), id, DueAt(ts));
    }
  }

  /**
   A claim in a reachable state commits if and only if every selected trigger can be processed; then
   each selected trigger moves on, firing once if it was due outside its blackout, and never finds
   its key recorded already. Otherwise nothing changes.
   */
  lemma ClaimNeverSticks(cron: Cron, states: seq<TriggerDb>, steps: seq<Step>, k: nat)
    requires StrictlyLater(cron) && Run(cron, states, steps) && k < |steps| && steps[k].action.ClaimDueStep?
    ensures var db, t, now, order := states[k], states[k + 1], steps[k].now, steps[k].action.order;
            && Selected(db, order, now)
            && (if forall id <- order :: Processable(db, id, now, cron)
                then AllAdvanced(db, t, order, now, cron)
                else t == db)
            && forall id <- order :: WouldFire(db.triggers[id], now) ==>
                 (id, DueAt(db.triggers[id].next.value)) !in db.firings
  {
    RunIsExact(cron, states, steps, k);
    var db, now, order, clock := states[k], steps[k].now, steps[k].action.order, Clock(steps, k);
    SelectsDue(db, now, steps[k].action.limit, steps[k].action.skipped, order);
    BatchCommitsIff(db, order, clock, now, cron);
    if Batch(db, order, now, cron).Some? { BatchAdvances(db, order, clock, now, cron); }
    forall id | id in order && WouldFire(db.triggers[id], now)
      ensures (id, DueAt(db.triggers[id].next.value)) !in db.firings
    {
      ProcessKeeps(db, id, clock, now, cron);
    }
  }

  /** The row that comes first in the order is in every selection that skips nothing. */
  lemma FirstIsSelected(db: TriggerDb, now: int, limit: int, order: seq<nat>, b: nat)
    requires Selects(db, now, limit, {}, order)
    requires b in DuePool(db, now) && forall x <- db.triggers :: x != b ==> Before(DueOrder(db)[b], DueOrder(db)[x])
    ensures b in order
  {
    var pool, n := DuePool(db, now) - {}, if limit < 1 then 1 else limit;
    FirstIsFirst(pool, DueOrder(db), n);
    var f := First(pool, DueOrder(db), n);
    assert b in f;
  }

  /**
   One enabled trigger that has no `next_execution` and a schedule the parser rejects, sorted before
   the others, is selected by every claim and aborts every claim: no trigger ever fires again.
   */
  lemma {:induction false} PoisonedTriggerStopsAll(cron: Cron, states: seq<TriggerDb>, steps: seq<Step>, k: nat, b: nat)
    requires StrictlyLater(cron) && Run(cron, states, steps) && k < |states|
    requires forall step <- steps :: step.action.ClaimDueStep? && step.action.skipped == {}
    requires var db := states[0];
             && b in db.triggers && db.triggers[b].enabled && db.triggers[b].isCron && db.triggers[b].next.None?
             && (forall now :: cron(db.triggers[b].schedule, now).None?)
             && forall x <- db.triggers :: x != b ==> Before(DueOrder(db)[b], DueOrder(db)[x])
    ensures states[k] == states[0]
  {
    if k > 0 {
      PoisonedTriggerStopsAll(cron, states, steps, k - 1, b);
      var step := steps[k - 1];
      assert step in steps;
      FirstIsSelected(states[0], step.now, step.action.limit, step.action.order, b);
      ClaimNeverSticks(cron, states, steps, k - 1);
      assert !Processable(states[k - 1], b, step.now, cron);
    }
  }
}
