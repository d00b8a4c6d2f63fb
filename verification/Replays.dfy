/**
 Repeated result events among everything else that writes the node tables: status updates, chunk
 appends and executor claims (runinator-database/src/operations.rs).
 */
module Replays {
  import opened NodeRuns

  /** The events applied, or delivered again, by these steps. */
  function EventIds(steps: seq<Step>): set<nat> {
    set step | step in steps && step.action.ApplyEvent? :: step.action.e.id
  }

  /** The steps without the deliveries of an event that was delivered before. */
  function WithoutRepeats(steps: seq<Step>): seq<Step> {
    if steps == [] then []
    else
      var before, last := steps[..|steps| - 1], steps[|steps| - 1];
      WithoutRepeats(before)
      + if last.action.ApplyEvent? && last.action.e.id in EventIds(before) then [] else [last]
  }

  ghost predicate NoRepeats(steps: seq<Step>) {
    forall i, j :: 0 <= i < j < |steps| && steps[i].action.ApplyEvent? && steps[j].action.ApplyEvent? ==>
      steps[i].action.e.id != steps[j].action.e.id
  }

  lemma {:induction false} RunAppliesIds(states: seq<NodeDb>, steps: seq<Step>, k: nat)
    requires Run(states, steps) && k < |states|
    ensures states[k].applied == EventIds(steps[..k])
  {
    if k > 0 {
      RunAppliesIds(states, steps, k - 1);
      assert steps[..k] == steps[..k - 1] + [steps[k - 1]];
      assert states[k] == Next(states[k - 1], steps[k - 1]);
      assert states[k].applied ==
             states[k - 1].applied + if steps[k - 1].action.ApplyEvent? then {steps[k - 1].action.e.id} else {};
    }
  }

  lemma EventIdsAppend(steps: seq<Step>, last: Step)
    ensures EventIds(steps + [last]) ==
            EventIds(steps) + if last.action.ApplyEvent? then {last.action.e.id} else {}
  {
    var all := steps + [last];
    forall step | step in steps ensures step in all {}
    assert all[|steps|] == last;
  }

  lemma {:induction false} WithoutRepeatsIsOnce(steps: seq<Step>)
    ensures NoRepeats(WithoutRepeats(steps))
    ensures EventIds(WithoutRepeats(steps)) == EventIds(steps)
    ensures forall step <- WithoutRepeats(steps) :: step in steps
    ensures forall step <- steps :: !step.action.ApplyEvent? ==> step in WithoutRepeats(steps)
  {
    if steps != [] {
      var before, last := steps[..|steps| - 1], steps[|steps| - 1];
      WithoutRepeatsIsOnce(before);
      assert steps == before + [last];
      var kept := WithoutRepeats(before);
      forall i | 0 <= i < |kept| && kept[i].action.ApplyEvent? ensures kept[i].action.e.id in EventIds(kept) {}
      assert kept + [] == kept;
      EventIdsAppend(before, last);
      EventIdsAppend(kept, last);
    }
  }

  lemma Extend(states: seq<NodeDb>, steps: seq<Step>, step: Step, t: NodeDb)
    requires Run(states, steps) && Enabled(states[|steps|], step) && t == Next(states[|steps|], step)
    ensures Run(states + [t], steps + [step])
  {
  }

  lemma RepeatChangesNothing(states: seq<NodeDb>, steps: seq<Step>, k: nat)
    requires Run(states, steps) && k < |steps| && steps[k].action.ApplyEvent?
    requires steps[k].action.e.id in EventIds(steps[..k])
    ensures states[k + 1] == states[k]
  {
    RunAppliesIds(states, steps, k);
  }

  lemma WithoutRepeatsGrows(steps: seq<Step>, k: nat)
    requires k < |steps|
    ensures WithoutRepeats(steps[..k + 1]) ==
            if steps[k].action.ApplyEvent? && steps[k].action.e.id in EventIds(steps[..k])
            then WithoutRepeats(steps[..k]) else WithoutRepeats(steps[..k]) + [steps[k]]
  {
    assert steps[..k + 1][..k] == steps[..k];
  }

  /** The first `k` steps of a run, with the repeated deliveries taken out, reach the same state. */
  lemma {:induction false} ReplaysUpTo(states: seq<NodeDb>, steps: seq<Step>, k: nat) returns (fewer: seq<NodeDb>)
    requires Run(states, steps) && k < |states|
    ensures Run(fewer, WithoutRepeats(steps[..k]))
    ensures fewer[|fewer| - 1] == states[k]
  {
    if k == 0 {
      fewer := [EMPTY_DB];
    } else {
      fewer := ReplaysUpTo(states, steps, k - 1);
      var last := steps[k - 1];
      WithoutRepeatsGrows(steps, k - 1);
      if last.action.ApplyEvent? && last.action.e.id in EventIds(steps[..k - 1]) {
        RepeatChangesNothing(states, steps, k - 1);
      } else {
        Extend(fewer, WithoutRepeats(steps[..k - 1]), last, states[k]);
        fewer := fewer + [states[k]];
      }
    }
  }

  /**
   Deleting every repeated delivery from a run leaves a run with the same final state, in which each
   event is applied once and every other step still happens.
   */
  lemma RepeatsCanBeDeleted(states: seq<NodeDb>, steps: seq<Step>) returns (fewer: seq<NodeDb>)
    requires Run(states, steps)
    ensures Run(fewer, WithoutRepeats(steps)) && fewer[|fewer| - 1] == states[|steps|]
    ensures NoRepeats(WithoutRepeats(steps)) && EventIds(WithoutRepeats(steps)) == EventIds(steps)
  {
    assert steps[..|steps|] == steps;
    fewer := ReplaysUpTo(states, steps, |steps|);
    WithoutRepeatsIsOnce(steps);
  }

  // ---- the tables hold the events ----

  /** The artifacts that these steps report, in order. */
  function ArtifactsOf(steps: seq<Step>): seq<Artifact> {
    if steps == [] then []
    else
      var last := steps[|steps| - 1];
      ArtifactsOf(steps[..|steps| - 1])
      + if last.action.ApplyEvent? && last.action.e.kind.NewArtifact?
        then [Artifact(last.action.e.nodeRun, last.action.e.kind.name, last.action.e.kind.uri, last.action.e.timestamp)]
        else []
  }

  /** The chunks that these steps report or append, in order. */
  function LogsOf(steps: seq<Step>): seq<Log> {
    if steps == [] then []
    else
      var last := steps[|steps| - 1];
      LogsOf(steps[..|steps| - 1])
      + match last.action
        case ApplyEvent(e) =>
          if e.kind.NewChunk? then [Log(e.nodeRun, e.kind.stream, e.kind.content, e.timestamp)] else []
        case AppendChunk(x, stream, content) => [Log(x, stream, content, last.now)]
        case _ => []
  }

  /** One step that is no repeat adds its artifact, or its chunk, and nothing else. */
  lemma {:induction false} StepAddsItsOwn(db: NodeDb, steps: seq<Step>, last: Step)
    requires last.action.ApplyEvent? ==> last.action.e.id !in db.applied
    requires db.artifacts == ArtifactsOf(steps) && LogsIn(db.chunks) == LogsOf(steps)
    ensures Next(db, last).artifacts == ArtifactsOf(steps + [last])
    ensures LogsIn(Next(db, last).chunks) == LogsOf(steps + [last])
  {
    assert (steps + [last])[..|steps|] == steps;
    var t := Next(db, last);
    assert db.chunks <= t.chunks && LogsIn(t.chunks)[..|db.chunks|] == LogsIn(db.chunks);
  }

  /**
   After any run the artifact table is the artifact events, each once and in the order they first came;
   and the chunk table, apart from the numbers, is the chunk events and the direct appends in theirs.
   */
  lemma {:induction false} TablesHoldTheEvents(states: seq<NodeDb>, steps: seq<Step>, k: nat)
    requires Run(states, steps) && k < |states|
    ensures states[k].artifacts == ArtifactsOf(WithoutRepeats(steps[..k]))
    ensures LogsIn(states[k].chunks) == LogsOf(WithoutRepeats(steps[..k]))
  {
    if k > 0 {
      TablesHoldTheEvents(states, steps, k - 1);
      RunAppliesIds(states, steps, k - 1);
      WithoutRepeatsGrows(steps, k - 1);
      var last := steps[k - 1];
      if last.action.ApplyEvent? && last.action.e.id in EventIds(steps[..k - 1]) {
        RepeatChangesNothing(states, steps, k - 1);
      } else {
        StepAddsItsOwn(states[k - 1], WithoutRepeats(steps[..k - 1]), last);
      }
    }
  }
}
