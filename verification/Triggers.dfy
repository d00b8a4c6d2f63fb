/**
 Cron trigger firing (runinator-database/src/operations.rs, runinator-database/src/common.rs): one
 transaction walks the due triggers, and either all of its changes commit or none do.
 The cron parser is an oracle; a failed lookup is `None`. Times are whole seconds.
 */
module Triggers {
  import opened Wrappers
  import opened Selection

  /** A cron firing is keyed by its due time; chained triggers record keys of their own. */
  datatype FireKey = DueAt(ts: int) | Named(name: string)

  datatype Trigger = Trigger(
    workflow: nat,
    enabled: bool,
    isCron: bool,
    schedule: string,
    next: Option<int>,
    blackoutStart: Option<int>,
    blackoutEnd: Option<int>)

  datatype Firing = Firing(run: Option<nat>, at: int)
  datatype CronRun = CronRun(trigger: nat, key: FireKey, createdAt: int)

  datatype TriggerDb = TriggerDb(
    triggers: map<nat, Trigger>,
    firings: map<(nat, FireKey), Firing>,   // unique (trigger_id, fire_key)
    runs: map<nat, CronRun>,
    workflows: set<nat>,
    nextRun: nat)

  /** `next_execution_for_cron`. */
  type Cron = (string, int) -> Option<int>

  /** The next occurrence is strictly after `now` (`find_next_occurrence(&now, false)`). */
  ghost predicate StrictlyLater(cron: Cron) {
    forall schedule, now :: cron(schedule, now).Some? ==> cron(schedule, now).value > now
  }

  predicate InBlackout(t: Trigger, now: int) {
    t.blackoutStart.Some? && t.blackoutEnd.Some? && t.blackoutStart.value <= now <= t.blackoutEnd.value
  }

  predicate Due(t: Trigger, now: int) {
    t.enabled && t.isCron && (t.next.None? || t.next.value <= now)
  }

  function DuePool(db: TriggerDb, now: int): set<nat> {
    set id | id in db.triggers && Due(db.triggers[id], now)
  }

  /** `ORDER BY COALESCE(next_execution, 0), id`. */
  function DueOrder(db: TriggerDb): Keys {
    map id | id in db.triggers ::
      SortKey(if db.triggers[id].next.Some? then db.triggers[id].next.value else 0, 0, id)
  }

  /** The rows the select returns, in order; `skipped` are those `SKIP LOCKED` passes over. */
  ghost predicate Selects(db: TriggerDb, now: int, limit: int, skipped: set<nat>, order: seq<nat>) {
    && (forall id :: id in order <==>
          id in First(DuePool(db, now) - skipped, DueOrder(db), if limit < 1 then 1 else limit))
    && (forall i, j :: 0 <= i < j < |order| ==>
          order[i] in db.triggers && order[j] in db.triggers
          && Before(DueOrder(db)[order[i]], DueOrder(db)[order[j]]))
  }

  function WithNext(db: TriggerDb, id: nat, next: int): TriggerDb
    requires id in db.triggers
  {
    db.(triggers := db.triggers[id := db.triggers[id].(next := Some(next))])
  }

  predicate WouldFire(t: Trigger, now: int) {
    t.next.Some? && !InBlackout(t, now)
  }

  /** One pass of the loop body; `None` is an error that aborts the transaction. */
  function Process(db: TriggerDb, id: nat, now: int, cron: Cron): Option<TriggerDb>
    requires id in db.triggers
  {
    var t := db.triggers[id];
    var upcoming := cron(t.schedule, now);
    if t.next.None? then
      if upcoming.None? then None else Some(WithNext(db, id, upcoming.value))
    else if InBlackout(t, now) then
      Some(WithNext(db, id, t.blackoutEnd.value))
    else if (id, DueAt(t.next.value)) in db.firings then
      Some(db)
    else if t.workflow !in db.workflows || upcoming.None? then
      None
    else
      Some(WithNext(Fire(db, id, DueAt(t.next.value), now), id, upcoming.value))
  }

  /** The firing row, the queued run and the link between them. */
  function Fire(db: TriggerDb, id: nat, key: FireKey, now: int): TriggerDb {
    db.(firings := db.firings[(id, key) := Firing(Some(db.nextRun), now)],
        runs := db.runs[db.nextRun := CronRun(id, key, now)],
        nextRun := db.nextRun + 1)
  }

  function Batch(db: TriggerDb, order: seq<nat>, now: int, cron: Cron): Option<TriggerDb>
    decreases |order|
  {
    if order == [] then Some(db)
    else if order[0] !in db.triggers then Batch(db, order[1..], now, cron)
    else
      var after := Process(db, order[0], now, cron);
      if after.None? then None else Batch(after.value, order[1..], now, cron)
  }

  /** `claim_due_workflow_trigger_firings`: an error rolls everything back. */
  function ClaimDue(db: TriggerDb, order: seq<nat>, now: int, cron: Cron): TriggerDb {
    var committed := Batch(db, order, now, cron);
    if committed.Some? then committed.value else db
  }

  /** `try_record_trigger_firing`: true exactly when this call recorded the key. */
  function TryRecord(db: TriggerDb, id: nat, name: string, now: int): (TriggerDb, bool) {
    if (id, Named(name)) in db.firings then (db, false)
    else (db.(firings := db.firings[(id, Named(name)) := Firing(None, now)]), true)
  }

  // ---- a claim in the columns of the tables ----

  /**
   What the select returns, in columns: enabled cron triggers without a `next_execution` or past it, in
   order of it (none counts as 0) and then of id.
   */
  lemma SelectsInColumns(db: TriggerDb, now: int, limit: int, skipped: set<nat>, order: seq<nat>)
    requires Selects(db, now, limit, skipped, order)
    ensures forall id <- order ::
              && id in db.triggers && id !in skipped && db.triggers[id].enabled && db.triggers[id].isCron
              && (db.triggers[id].next.Some? ==> db.triggers[id].next.value <= now)
    ensures forall i, j :: 0 <= i < j < |order| ==>
              && order[i] in db.triggers && order[j] in db.triggers
              && Sooner(db.triggers[order[i]], order[i], db.triggers[order[j]], order[j])
    ensures Distinct(order)
  {
  }

  lemma SelectsNoMore(db: TriggerDb, now: int, limit: int, skipped: set<nat>, order: seq<nat>)
    requires Selects(db, now, limit, skipped, order)
    ensures |Ids(order)| <= if limit < 1 then 1 else limit
  {
    var pool, n := DuePool(db, now) - skipped, if limit < 1 then 1 else limit;
    FirstIsFirst(pool, DueOrder(db), n);
    assert Ids(order) == First(pool, DueOrder(db), n);
  }

  /** By `next_execution`, where none counts as 0, and then by id. */
  predicate Sooner(a: Trigger, x: nat, b: Trigger, y: nat) {
    var at, bt := if a.next.None? then 0 else a.next.value, if b.next.None? then 0 else b.next.value;
    at < bt || (at == bt && x < y)
  }

  /** A due trigger the select leaves out comes after every one it returns, and those are a full batch. */
  lemma LeftOutIsLaterDue(db: TriggerDb, now: int, limit: int, skipped: set<nat>, order: seq<nat>, id: nat)
    requires Selects(db, now, limit, skipped, order)
    requires id in db.triggers && id !in skipped && db.triggers[id].enabled && db.triggers[id].isCron
    requires db.triggers[id].next.Some? ==> db.triggers[id].next.value <= now
    requires id !in order
    ensures |Ids(order)| == if limit < 1 then 1 else limit
    ensures forall p <- order ::
              p in db.triggers && Sooner(db.triggers[p], p, db.triggers[id], id)
  {
    var pool, n := DuePool(db, now) - skipped, if limit < 1 then 1 else limit;
    LeftOutIsLater(pool, DueOrder(db), n, id);
    assert Ids(order) == First(pool, DueOrder(db), n);
  }

  /** An error on this trigger: no next occurrence where one is needed, or a workflow that is gone. */
  ghost predicate Fails(db: TriggerDb, id: nat, now: int, cron: Cron)
    requires id in db.triggers
  {
    var t := db.triggers[id];
    if t.next.None? then cron(t.schedule, now).None?
    else if t.blackoutStart.Some? && t.blackoutEnd.Some?
            && t.blackoutStart.value <= now <= t.blackoutEnd.value then false
    else (id, DueAt(t.next.value)) !in db.firings && (t.workflow !in db.workflows || cron(t.schedule, now).None?)
  }

  /**
   What a committed claim does to a selected trigger. Only its `next_execution` changes: to the schedule's
   next occurrence after now, or, in blackout, to the end of the blackout. Out of blackout a set
   `next_execution` fires, unless that time is recorded already, and then nothing happens.
   */
  ghost predicate Moves(db: TriggerDb, t: TriggerDb, id: nat, now: int, cron: Cron)
    requires id in db.triggers
  {
    var was := db.triggers[id];
    && id in t.triggers && t.triggers[id] == was.(next := t.triggers[id].next)
    && var next := t.triggers[id].next;
       if was.next.None? then next.Some? && next == cron(was.schedule, now)
       else if was.blackoutStart.Some? && was.blackoutEnd.Some?
               && was.blackoutStart.value <= now <= was.blackoutEnd.value then next == was.blackoutEnd
       else
         var at := (id, DueAt(was.next.value));
         if at in db.firings then next == was.next
         else
           && next.Some? && next == cron(was.schedule, now)
           && at in t.firings && t.firings[at].at == now && t.firings[at].run.Some?
           && db.nextRun <= t.firings[at].run.value < t.nextRun
           && t.firings[at].run.value in t.runs && t.runs[t.firings[at].run.value] == CronRun(id, at.1, now)
  }

  /** Triggers that were not selected, recorded firings and stored runs stay, and only these triggers fire. */
  ghost predicate RestStays(db: TriggerDb, t: TriggerDb, ids: set<nat>) {
    && t.workflows == db.workflows && t.triggers.Keys == db.triggers.Keys && db.nextRun <= t.nextRun
    && (forall x <- db.triggers :: x !in ids ==> t.triggers[x] == db.triggers[x])
    && (forall f <- db.firings :: f in t.firings && t.firings[f] == db.firings[f])
    && (forall f <- t.firings :: f !in db.firings ==> f.0 in ids)
    && (forall r <- db.runs :: r < db.nextRun ==> r in t.runs && t.runs[r] == db.runs[r])
    && (forall r <- t.runs :: r in db.runs || (db.nextRun <= r < t.nextRun && t.runs[r].trigger in ids))
  }

  lemma ProcessInColumns(db: TriggerDb, id: nat, now: int, cron: Cron)
    requires id in db.triggers
    ensures Process(db, id, now, cron).Some? <==> !Fails(db, id, now, cron)
    ensures Process(db, id, now, cron).Some? ==>
              var t := Process(db, id, now, cron).value;
              Moves(db, t, id, now, cron) && RestStays(db, t, {id})
  {
  }

  /** What the head's step leaves for the rest of the batch. */
  lemma SameForOthers(db: TriggerDb, m: TriggerDb, head: nat, id: nat, now: int, cron: Cron)
    requires head in db.triggers && id in db.triggers && id != head && RestStays(db, m, {head})
    ensures id in m.triggers && (Fails(m, id, now, cron) <==> Fails(db, id, now, cron))
  {
  }

  lemma OthersMove(db: TriggerDb, m: TriggerDb, t: TriggerDb, head: nat, ids: set<nat>, id: nat, now: int, cron: Cron)
    requires head in db.triggers && id in db.triggers && id != head && id in ids && head !in ids
    requires RestStays(db, m, {head}) && id in m.triggers && Moves(m, t, id, now, cron) && RestStays(m, t, ids)
    ensures Moves(db, t, id, now, cron)
  {
  }

  lemma HeadMoved(db: TriggerDb, m: TriggerDb, t: TriggerDb, head: nat, ids: set<nat>, now: int, cron: Cron)
    requires head in db.triggers && head !in ids && (forall r <- m.runs :: r < m.nextRun)
    requires Moves(db, m, head, now, cron) && RestStays(db, m, {head}) && RestStays(m, t, ids)
    ensures Moves(db, t, head, now, cron)
  {
  }

  lemma RestStaysOn(db: TriggerDb, m: TriggerDb, t: TriggerDb, head: nat, ids: set<nat>)
    requires RestStays(db, m, {head}) && RestStays(m, t, ids) && (forall r <- db.runs :: r < db.nextRun)
    ensures RestStays(db, t, ids + {head})
  {
  }

  function Ids(order: seq<nat>): set<nat> {
    set id | id in order
  }

  ghost predicate Distinct(order: seq<nat>) {
    forall i, j :: 0 <= i < j < |order| ==> order[i] != order[j]
  }

  /** The claim of a batch, in the columns. */
  ghost predicate Claimed(db: TriggerDb, t: TriggerDb, order: seq<nat>, now: int, cron: Cron)
    requires forall id <- order :: id in db.triggers
  {
    (forall id <- order :: Moves(db, t, id, now, cron)) && RestStays(db, t, Ids(order))
  }

  lemma HeadAndRest(db: TriggerDb, m: TriggerDb, t: TriggerDb, head: nat, rest: seq<nat>, now: int, cron: Cron)
    requires head in db.triggers && head !in rest && (forall id <- rest :: id in db.triggers && id in m.triggers)
    requires (forall r <- db.runs :: r < db.nextRun) && (forall r <- m.runs :: r < m.nextRun)
    requires Moves(db, m, head, now, cron) && RestStays(db, m, {head}) && Claimed(m, t, rest, now, cron)
    ensures Claimed(db, t, [head] + rest, now, cron)
  {
    HeadMoved(db, m, t, head, Ids(rest), now, cron);
    forall id | id in rest ensures Moves(db, t, id, now, cron) {
      OthersMove(db, m, t, head, Ids(rest), id, now, cron);
    }
    RestStaysOn(db, m, t, head, Ids(rest));
    assert Ids([head] + rest) == Ids(rest) + {head};
  }

  lemma OthersFailAlike(db: TriggerDb, m: TriggerDb, head: nat, rest: seq<nat>, now: int, cron: Cron)
    requires head in db.triggers && head !in rest && (forall id <- rest :: id in db.triggers)
    requires RestStays(db, m, {head})
    ensures forall id <- rest :: id in m.triggers && (Fails(m, id, now, cron) <==> Fails(db, id, now, cron))
  {
    forall id | id in rest ensures id in m.triggers && (Fails(m, id, now, cron) <==> Fails(db, id, now, cron)) {
      SameForOthers(db, m, head, id, now, cron);
    }
  }

  lemma Behead(order: seq<nat>)
    requires order != [] && Distinct(order)
    ensures order == [order[0]] + order[1..] && order[0] !in order[1..] && Distinct(order[1..])
    ensures forall id :: id in order <==> id == order[0] || id in order[1..]
  {
  }

  /** A batch commits exactly if none of its triggers fails, and then moves each of them and nothing else. */
  lemma {:induction false} BatchInColumns(db: TriggerDb, order: seq<nat>, now: int, cron: Cron)
    requires Distinct(order) && (forall id <- order :: id in db.triggers) && forall r <- db.runs :: r < db.nextRun
    ensures Batch(db, order, now, cron).Some? <==> forall id <- order :: !Fails(db, id, now, cron)
    ensures Batch(db, order, now, cron).Some? ==> Claimed(db, Batch(db, order, now, cron).value, order, now, cron)
    decreases |order|
  {
    if order != [] {
      var head, rest := order[0], order[1..];
      Behead(order);
      ProcessInColumns(db, head, now, cron);
      if Process(db, head, now, cron).Some? {
        var m := Process(db, head, now, cron).value;
        OthersFailAlike(db, m, head, rest, now, cron);
        BatchInColumns(m, rest, now, cron);
        if Batch(m, rest, now, cron).Some? {
          HeadAndRest(db, m, Batch(m, rest, now, cron).value, head, rest, now, cron);
        }
      }
    }
  }

  // ---- the transaction as the loop it is ----

  class TriggerStore {
    var triggers: map<nat, Trigger>
    var firings: map<(nat, FireKey), Firing>
    var runs: map<nat, CronRun>
    var nextRun: nat
    const workflows: set<nat>

    ghost function View(): TriggerDb
      reads this
    {
      TriggerDb(triggers, firings, runs, workflows, nextRun)
    }

    /** Works on a private copy and commits at the end; an early return is the rollback. */
    method WalkFirings(order: seq<nat>, now: int, cron: Cron) returns (ok: bool, created: seq<nat>)
      requires forall id <- order :: id in triggers
      modifies this
      ensures ok <==> Batch(old(View()), order, now, cron).Some?
      ensures View() == ClaimDue(old(View()), order, now, cron)
      ensures ok ==> forall r :: r in created <==> old(nextRun) <= r < nextRun
      ensures !ok ==> created == []
    {
      var tx := TriggerDb(triggers, firings, runs, workflows, nextRun);
      created := [];
      var i := 0;
      while i < |order|
        invariant 0 <= i <= |order|
        invariant tx.triggers.Keys == triggers.Keys && tx.workflows == workflows
        invariant Batch(View(), order, now, cron) == Batch(tx, order[i..], now, cron)
        invariant nextRun <= tx.nextRun
        invariant forall r :: r in created <==> nextRun <= r < tx.nextRun
      {
        var id := order[i];
        assert order[i..][0] == id && order[i..][1..] == order[i + 1..];
        var t := tx.triggers[id];
        i := i + 1;
        if t.next.None? {
          var upcoming := cron(t.schedule, now);
          if upcoming.None? {
            return false, [];
          }
          tx := WithNext(tx, id, upcoming.value);
          continue;
        }
        if InBlackout(t, now) {
          tx := WithNext(tx, id, t.blackoutEnd.value);
          continue;
        }
        var key := DueAt(t.next.value);
        if (id, key) in tx.firings {
          continue;
        }
        if t.workflow !in tx.workflows {
          return false, [];
        }
        var run := tx.nextRun;
        var upcoming := cron(t.schedule, now);
        if upcoming.None? {
          return false, [];
        }
        tx := Fire(tx, id, key, now);
        tx := WithNext(tx, id, upcoming.value);
        created := created + [run];
      }
      triggers, firings, runs, nextRun := tx.triggers, tx.firings, tx.runs, tx.nextRun;
      ok := true;
    }

    /**
     `claim_due_workflow_trigger_firings`, for what its select returned. It commits exactly if no selected
     trigger fails, and then each of them has moved on and nothing else; otherwise nothing has changed.
     */
    method ClaimDueFirings(
        order: seq<nat>, now: int, cron: Cron, ghost limit: int, ghost skipped: set<nat>)
      returns (ok: bool, created: seq<nat>)
      requires Selects(View(), now, limit, skipped, order)
      requires forall r <- runs :: r < nextRun
      modifies this
      ensures View() == ClaimDue(old(View()), order, now, cron)
      ensures forall id <- order ::
                && id in old(triggers) && old(triggers)[id].enabled && old(triggers)[id].isCron
                && (old(triggers)[id].next.Some? ==> old(triggers)[id].next.value <= now)
      ensures |Ids(order)| <= if limit < 1 then 1 else limit
      ensures ok <==> forall id <- order :: !Fails(old(View()), id, now, cron)
      ensures ok ==> RestStays(old(View()), View(), Ids(order))
      ensures ok ==> forall id <- order :: Moves(old(View()), View(), id, now, cron)
      ensures ok ==> forall r :: r in created <==> old(nextRun) <= r < nextRun
      ensures !ok ==> View() == old(View()) && created == []
    {
      SelectsInColumns(View(), now, limit, skipped, order);
      SelectsNoMore(View(), now, limit, skipped, order);
      BatchInColumns(View(), order, now, cron);
      ok, created := WalkFirings(order, now, cron);
    }

    /** `try_record_trigger_firing`: the first to record a name wins, and records no run. */
    method TryRecordTriggerFiring(id: nat, name: string, now: int) returns (recorded: bool)
      modifies `firings
      ensures (View(), recorded) == TryRecord(old(View()), id, name, now)
      ensures recorded <==> (id, Named(name)) !in old(firings)
      ensures firings == if recorded then old(firings)[(id, Named(name)) := Firing(None, now)] else old(firings)
    {
      recorded := (id, Named(name)) !in firings;
      if recorded {
        firings := firings[(id, Named(name)) := Firing(None, now)];
      }
    }
  }

  // ---- runs of claims ----

  datatype Action =
    | ClaimDueStep(order: seq<nat>, limit: int, skipped: set<nat>)
    | RecordStep(trigger: nat, name: string)

  datatype Step = At(now: int, action: Action)

  /** Claims select due rows; only chained triggers record firings by name. */
  ghost predicate Enabled(db: TriggerDb, step: Step) {
    match step.action
    case ClaimDueStep(order, limit, skipped) => Selects(db, step.now, limit, skipped, order)
    case RecordStep(id, _) => id in db.triggers && !db.triggers[id].isCron
  }

  function Next(db: TriggerDb, step: Step, cron: Cron): TriggerDb {
    match step.action
    case ClaimDueStep(order, _, _) => ClaimDue(db, order, step.now, cron)
    case RecordStep(id, name) => TryRecord(db, id, name, step.now).0
  }

  /** Any triggers, with any `next_execution`, that have not fired yet; a nondecreasing clock. */
  ghost predicate Run(cron: Cron, states: seq<TriggerDb>, steps: seq<Step>) {
    && |states| == |steps| + 1
    && states[0].firings == map[] && states[0].runs == map[]
    && (forall i, j :: 0 <= i < j < |steps| ==> steps[i].now <= steps[j].now)
    && forall k :: 0 <= k < |steps| ==>
         Enabled(states[k], steps[k]) && states[k + 1] == Next(states[k], steps[k], cron)
  }

  /** What is known of a recorded firing of a cron trigger at clock time `clock`. */
  ghost predicate Fired(db: TriggerDb, clock: int, id: nat, key: FireKey)
    requires id in db.triggers && (id, key) in db.firings
  {
    var f, t := db.firings[(id, key)], db.triggers[id];
    && key.DueAt? && key.ts <= f.at <= clock && !InBlackout(t, f.at)
    && f.run.Some? && f.run.value in db.runs && db.runs[f.run.value] == CronRun(id, key, f.at)
    && t.next.Some? && key.ts < t.next.value
  }

  ghost predicate Exact(db: TriggerDb, clock: int) {
    && (forall id, key :: (id, key) in db.firings && id in db.triggers && db.triggers[id].isCron ==>
          Fired(db, clock, id, key))
    && (forall r <- db.runs ::
          && r < db.nextRun
          && (db.runs[r].trigger, db.runs[r].key) in db.firings
          && db.firings[(db.runs[r].trigger, db.runs[r].key)].run == Some(r)
          && db.runs[r].trigger in db.triggers && db.triggers[db.runs[r].trigger].isCron)
  }

  /** Claims change nothing of a trigger but its `next_execution`. */
  ghost predicate SameTriggers(a: TriggerDb, b: TriggerDb) {
    && a.triggers.Keys == b.triggers.Keys && a.workflows == b.workflows
    && forall id <- a.triggers :: b.triggers[id] == a.triggers[id].(next := b.triggers[id].next)
  }

  /** Moving `next_execution` past every recorded key is harmless. */
  lemma BumpKeeps(db: TriggerDb, id: nat, clock: int, now: int, n: int)
    requires Exact(db, clock) && clock <= now && id in db.triggers
    requires forall key :: (id, key) in db.firings && db.triggers[id].isCron ==> key.DueAt? && key.ts < n
    ensures Exact(WithNext(db, id, n), now)
  {
    var t := WithNext(db, id, n);
    forall x, key | (x, key) in t.firings && x in t.triggers && t.triggers[x].isCron
      ensures Fired(t, now, x, key)
    {
      assert Fired(db, clock, x, key);
    }
  }

  lemma FireKeeps(db: TriggerDb, id: nat, clock: int, now: int, n: int)
    requires Exact(db, clock) && clock <= now < n && id in db.triggers
    requires Due(db.triggers[id], now) && WouldFire(db.triggers[id], now)
    ensures Exact(WithNext(Fire(db, id, DueAt(db.triggers[id].next.value), now), id, n), now)
  {
    var t := WithNext(Fire(db, id, DueAt(db.triggers[id].next.value), now), id, n);
    assert (id, DueAt(db.triggers[id].next.value)) !in db.firings;
    forall x, key | (x, key) in t.firings && x in t.triggers && t.triggers[x].isCron
      ensures Fired(t, now, x, key)
    {
      if (x, key) in db.firings { assert Fired(db, clock, x, key); }
    }
  }

  lemma ProcessKeeps(db: TriggerDb, id: nat, clock: int, now: int, cron: Cron)
    requires StrictlyLater(cron) && Exact(db, clock) && clock <= now
    requires id in db.triggers && Due(db.triggers[id], now)
    ensures Process(db, id, now, cron).Some? ==>
              Exact(Process(db, id, now, cron).value, now) && SameTriggers(db, Process(db, id, now, cron).value)
    ensures WouldFire(db.triggers[id], now) ==> (id, DueAt(db.triggers[id].next.value)) !in db.firings
  {
    var t := db.triggers[id];
    forall key | (id, key) in db.firings ensures Fired(db, clock, id, key) {}
    if t.next.Some? && !InBlackout(t, now) && cron(t.schedule, now).Some? {
      FireKeeps(db, id, clock, now, cron(t.schedule, now).value);
    } else if t.next.Some? && InBlackout(t, now) {
      BumpKeeps(db, id, clock, now, t.blackoutEnd.value);
    } else if t.next.None? && cron(t.schedule, now).Some? {
      BumpKeeps(db, id, clock, now, cron(t.schedule, now).value);
    }
  }
}
