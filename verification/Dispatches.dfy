/**
 The outbox of action dispatches (runinator-database/src/operations.rs): the first writer of a
 dedupe key wins, schedulers claim unpublished rows in order, and publishing lets the claim go.
 */
module Dispatches {
  import opened Wrappers
  import opened Selection
  import L = Leases

  datatype Dispatch = Dispatch(
    key: string,
    command: string,
    attempts: nat,
    createdAt: int,
    updatedAt: int,
    publishedAt: Option<int>,
    lease: L.Lease)

  /** The stored rows, and every row id ever given out. */
  datatype Outbox = Outbox(rows: map<nat, Dispatch>, used: set<nat>)

  const EMPTY := Outbox(map[], {})

  predicate Held(rows: map<nat, Dispatch>, key: string) {
    exists id <- rows :: rows[id].key == key
  }

  /** `ORDER BY updated_at ASC, id ASC`. */
  function DispatchOrder(rows: map<nat, Dispatch>): Keys {
    map id | id in rows :: SortKey(rows[id].updatedAt, 0, id)
  }

  function ClaimPool(rows: map<nat, Dispatch>, who: L.Owner, now: int): set<nat> {
    set id | id in rows && rows[id].publishedAt.None? && L.Claimable(rows[id].lease, who, now)
  }

  ghost function ClaimPick(rows: map<nat, Dispatch>, who: L.Owner, now: int, limit: int, skipped: set<nat>): set<nat> {
    First(ClaimPool(rows, who, now) - skipped, DispatchOrder(rows), if limit < 1 then 1 else limit)
  }

  function ClaimRows(rows: map<nat, Dispatch>, picked: set<nat>, who: L.Owner, now: int, until: int)
    : map<nat, Dispatch>
  {
    map id | id in rows ::
      if id in picked then rows[id].(lease := L.Lease(Some(who), Some(until)), updatedAt := now) else rows[id]
  }

  /** The actor of `Published` and `Failed` is who calls; the statements do not ask. */
  datatype Action =
    | Enqueue(id: nat, key: string, command: string)
    | Claim(who: L.Owner, until: int, limit: int, skipped: set<nat>)
    | Published(id: nat, who: L.Owner)
    | Failed(id: nat, who: L.Owner)
    | Archive(id: nat)     // the archiver deletes a published row

  datatype Step = At(now: int, action: Action)

  /** New row ids are always unused; only published rows are archived. */
  predicate Enabled(o: Outbox, step: Step) {
    match step.action
    case Enqueue(id, _, _) => id !in o.used
    case Archive(id) => id in o.rows && o.rows[id].publishedAt.Some?
    case _ => true
  }

  ghost function NextRows(rows: map<nat, Dispatch>, step: Step): map<nat, Dispatch> {
    var now := step.now;
    match step.action
    case Enqueue(id, key, command) =>
      if Held(rows, key) then rows else rows[id := Dispatch(key, command, 0, now, now, None, L.FREE)]
    case Claim(who, until, limit, skipped) =>
      ClaimRows(rows, ClaimPick(rows, who, now, limit, skipped), who, now, until)
    case Published(id, _) =>
      if id in rows then rows[id := rows[id].(publishedAt := Some(now), updatedAt := now, lease := L.FREE)] else rows
    case Failed(id, _) =>
      if id in rows
      then rows[id := rows[id].(attempts := rows[id].attempts + 1, updatedAt := now, lease := L.FREE)]
      else rows
    case Archive(id) => rows - {id}
  }

  ghost function Next(o: Outbox, step: Step): Outbox {
    Outbox(NextRows(o.rows, step), o.used + if step.action.Enqueue? then {step.action.id} else {})
  }

  ghost predicate Run(states: seq<Outbox>, steps: seq<Step>) {
    && |states| == |steps| + 1 && states[0] == EMPTY
    && forall k :: 0 <= k < |steps| ==> Enabled(states[k], steps[k]) && states[k + 1] == Next(states[k], steps[k])
  }

  /** One row per dedupe key, and no published row is claimed. */
  ghost predicate Sound(o: Outbox) {
    && o.rows.Keys <= o.used
    && (forall a <- o.rows, b <- o.rows :: o.rows[a].key == o.rows[b].key ==> a == b)
    && (forall id <- o.rows :: o.rows[id].publishedAt.Some? ==> o.rows[id].lease == L.FREE)
  }

  /** What a step leaves of a stored row. */
  ghost predicate Lasts(a: Outbox, b: Outbox, id: nat)
    requires id in a.rows
  {
    if id in b.rows then
      && b.rows[id].key == a.rows[id].key && b.rows[id].command == a.rows[id].command
      && (a.rows[id].publishedAt.Some? ==> b.rows[id].publishedAt.Some?)
    else a.rows[id].publishedAt.Some?
  }

  lemma {:induction false} StepKeeps(o: Outbox, step: Step)
    requires Sound(o) && Enabled(o, step)
    ensures Sound(Next(o, step))
    ensures forall id <- o.rows :: Lasts(o, Next(o, step), id)
  {
  }

  lemma {:induction false} RunKeeps(states: seq<Outbox>, steps: seq<Step>, k: nat)
    requires Run(states, steps) && k < |states|
    ensures Sound(states[k])
  {
    if k > 0 {
      RunKeeps(states, steps, k - 1);
      StepKeeps(states[k - 1], steps[k - 1]);
    }
  }

  ghost predicate Waiting(o: Outbox, id: nat, key: string, command: string) {
    id in o.rows && o.rows[id].key == key && o.rows[id].command == command && o.rows[id].publishedAt.None?
  }

  predicate Publishes(step: Step, id: nat) {
    step.action.Published? && step.action.id == id
  }

  /**
   The first writer wins: until the dispatch of a key is published, no later enqueue, claim or
   failure replaces its command or adds another row for the key.
   */
  lemma {:induction false} FirstWriterWins(
      states: seq<Outbox>, steps: seq<Step>, i: nat, j: nat, id: nat, key: string, command: string)
    requires Run(states, steps) && i <= j < |states| && Waiting(states[i], id, key, command)
    requires forall k :: i <= k < j ==> !Publishes(steps[k], id)
    ensures Waiting(states[j], id, key, command)
    ensures forall other <- states[j].rows :: states[j].rows[other].key == key ==> other == id
    decreases j
  {
    RunKeeps(states, steps, j);
    if i < j {
      FirstWriterWins(states, steps, i, j - 1, id, key, command);
      RunKeeps(states, steps, j - 1);
    }
  }
}
