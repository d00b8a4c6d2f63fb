/**
 MySQL claims in two statements: an UPDATE and a SELECT by (holder, deadline) that may run any number
 of steps later (runinator-database/src/operations.rs). What the SELECT returns then, for ready nodes
 and workflow runs.
 */
module ReadBacks {
  import opened Wrappers
  import opened Orchestration
  import opened ReadyRuns
  import opened ReadyClaims
  import L = Leases

  /** What a step does to the claim columns of ready node `id`. */
  ghost function NodeTouch(db: Db, step: Step, id: nat): L.Touch {
    match step.action
    case EnqueueNode(event, run, node, readyAt) =>
      if Enqueue(db, event, run, node, readyAt, step.now).1 == Some(id) then L.Gets(L.FREE) else L.Untouched
    case ClaimNodes(who, until, _, _) =>
      if id in GrantedNodes(db, step) then L.Gets(L.Lease(Some(who), Some(until))) else L.Untouched
    case ClaimNode(_, who, until) =>
      if id in GrantedNodes(db, step) then L.Gets(L.Lease(Some(who), Some(until))) else L.Untouched
    case ReleaseNode(x, who) =>
      if x == id && id in db.ready && db.ready[id].lease.owner == Some(who) && Pending(db.ready[id])
      then L.Gets(L.FREE) else L.Untouched
    case ArchiveNode(x) => if x == id then L.Gone else L.Untouched
    case _ => L.Untouched
  }

  lemma {:induction false} NodeTouchIsRight(db: Db, step: Step, id: nat)
    requires Stored(db)
    ensures L.RowOf(ReadyLeases(Next(db, step).ready), id)
            == L.Touched(L.RowOf(ReadyLeases(db.ready), id), NodeTouch(db, step, id))
  {
  }

  /** What a step does to the scheduler claim of workflow run `id`. */
  ghost function RunTouch(db: Db, step: Step, id: nat): L.Touch {
    match step.action
    case CreateRun => if db.nextRun == id then L.Gets(L.FREE) else L.Untouched
    case ClaimRuns(who, statuses, until, limit, skipped) =>
      if id in RunPick(db.runs, statuses, who, step.now, limit, skipped)
      then L.Gets(L.Lease(Some(who), Some(until))) else L.Untouched
    case RenewRunClaim(run, who, until) =>
      if run == id && id in db.runs && db.runs[id].lease.owner == Some(who)
      then L.Gets(L.Lease(Some(who), Some(until))) else L.Untouched
    case ReleaseRunClaim(run, who) =>
      if run == id && id in db.runs && db.runs[id].lease.owner == Some(who) then L.Gets(L.FREE) else L.Untouched
    case ArchiveRun(run) => if run == id then L.Gone else L.Untouched
    case _ => L.Untouched
  }

  /** The touches of one row over a whole run. */
  ghost function NodeTouches(states: seq<Db>, steps: seq<Step>, id: nat): (t: seq<L.Touch>)
    requires |states| == |steps| + 1
    ensures |t| == |steps|
  {
    seq(|steps|, k requires 0 <= k < |steps| => NodeTouch(states[k], steps[k], id))
  }

  ghost function RunTouches(states: seq<Db>, steps: seq<Step>, id: nat): (t: seq<L.Touch>)
    requires |states| == |steps| + 1
    ensures |t| == |steps|
  {
    seq(|steps|, k requires 0 <= k < |steps| => RunTouch(states[k], steps[k], id))
  }

  lemma NodesFollow(states: seq<Db>, steps: seq<Step>, id: nat) returns (rows: seq<Option<L.Lease>>)
    requires Run(states, steps)
    ensures L.Follows(rows, NodeTouches(states, steps, id))
    ensures forall k :: 0 <= k < |states| ==> rows[k] == L.RowOf(ReadyLeases(states[k].ready), id)
  {
    rows := seq(|states|, k requires 0 <= k < |states| => L.RowOf(ReadyLeases(states[k].ready), id));
    forall m | 0 <= m < |steps| ensures rows[m + 1] == L.Touched(rows[m], NodeTouches(states, steps, id)[m]) {
      RunKeeps(states, steps, m);
      NodeTouchIsRight(states[m], steps[m], id);
    }
  }

  lemma RunsFollow(states: seq<Db>, steps: seq<Step>, id: nat) returns (rows: seq<Option<L.Lease>>)
    requires Run(states, steps)
    ensures L.Follows(rows, RunTouches(states, steps, id))
    ensures forall k :: 0 <= k < |states| ==> rows[k] == L.RowOf(RunLeases(states[k].runs), id)
  {
    rows := seq(|states|, k requires 0 <= k < |states| => L.RowOf(RunLeases(states[k].runs), id));
    forall m | 0 <= m < |steps| ensures rows[m + 1] == L.Touched(rows[m], RunTouches(states, steps, id)[m]) {}
  }

  /**
   The UPDATE is step i, the SELECT runs in state j, anything in between. The SELECT returns row `id`
   if and only if the UPDATE granted it or it carried (who, until) before, and nothing has released,
   re-granted or archived it since; or a later claim of the same pair granted it and nothing since.
   */
  lemma NodesReadBackLater(
      states: seq<Db>, steps: seq<Step>, i: nat, j: nat, id: nat, who: L.Owner, until: int)
    requires Run(states, steps) && i < j < |states|
    requires var a := steps[i].action; (a.ClaimNodes? || a.ClaimNode?) && a.who == who && a.until == until
    ensures id in NodesReadBack(states[j].ready, who, until) <==>
            || ((id in GrantedNodes(states[i], steps[i]) || id in NodesReadBack(states[i].ready, who, until))
                && L.LeftAlone(NodeTouches(states, steps, id), i + 1, j))
            || L.WrittenBetween(NodeTouches(states, steps, id), L.Lease(Some(who), Some(until)), i + 1, j)
  {
    var rows := NodesFollow(states, steps, id);
    var touches := NodeTouches(states, steps, id);
    L.CarriesIff(rows, touches, i + 1, j, L.Lease(Some(who), Some(until)));
    assert rows[i + 1] == L.Touched(rows[i], touches[i]);
    GrantedRowsExist(states[i], steps[i]);
  }

  /**
   The same for workflow runs, where a renewal moves a claim out of, or into, the read-back too, and the
   archiver may delete the run.
   */
  lemma RunsReadBackLater(
      states: seq<Db>, steps: seq<Step>, i: nat, j: nat, id: nat, who: L.Owner, until: int)
    requires Run(states, steps) && i < j < |states|
    requires steps[i].action.ClaimRuns? && steps[i].action.who == who && steps[i].action.until == until
    ensures var a := steps[i].action;
            id in RunsReadBack(states[j].runs, who, until) <==>
            || ((id in RunPick(states[i].runs, a.statuses, who, steps[i].now, a.limit, a.skipped)
                 || id in RunsReadBack(states[i].runs, who, until))
                && L.LeftAlone(RunTouches(states, steps, id), i + 1, j))
            || L.WrittenBetween(RunTouches(states, steps, id), L.Lease(Some(who), Some(until)), i + 1, j)
  {
    var rows := RunsFollow(states, steps, id);
    var touches := RunTouches(states, steps, id);
    L.CarriesIff(rows, touches, i + 1, j, L.Lease(Some(who), Some(until)));
    assert rows[i + 1] == L.Touched(rows[i], touches[i]);
  }

  lemma Play(states: seq<Db>, steps: seq<Step>, step: Step) returns (states': seq<Db>, steps': seq<Step>)
    requires Run(states, steps) && Enabled(states[|steps|], step)
    ensures Run(states', steps') && steps' == steps + [step]
    ensures states'[..|steps| + 1] == states && states'[|steps'|] == Next(states[|steps|], step)
  {
    states', steps' := states + [Next(states[|steps|], step)], steps + [step];
  }

  /**
   A granted row can be missing: another process of the same scheduler releases it between the two
   statements, and the SELECT returns nothing.
   */
  lemma GrantedRowIsMissing(who: L.Owner, now: int, until: int) returns (states: seq<Db>, steps: seq<Step>)
    ensures Run(states, steps) && |steps| == 3
    ensures steps[1] == At(now, ClaimNode(0, who, until)) && 0 in GrantedNodes(states[1], steps[1])
    ensures NodesReadBack(states[3].ready, who, until) == {}
  {
    states, steps := [EMPTY], [];
    states, steps := Play(states, steps, At(now, EnqueueNode(0, 0, "n", now)));
    assert states[1].ready == map[0 := NewReadyNode(0, 0, "n", now, now)];
    states, steps := Play(states, steps, At(now, ClaimNode(0, who, until)));
    assert states[2].ready == map[0 := Claimed(NewReadyNode(0, 0, "n", now, now), who, now, until)];
    states, steps := Play(states, steps, At(now, ReleaseNode(0, who)));
  }
}
