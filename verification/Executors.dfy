/**
 The executor lease refines the generic lease protocol: a claim with a staleness window of D seconds
 holds the node run for more than D seconds unless its holder releases it.
 */
module Executors {
  import opened Wrappers
  import opened NodeRuns
  import L = Leases

  /** Every claim judges staleness by the same window. */
  ghost predicate Window(steps: seq<Step>, d: nat) {
    forall step <- steps :: step.action.Claim? ==> step.action.staleBefore == step.now - d
  }

  /** The executor columns as a lease: free for others once more than `d` seconds old. */
  function LeaseOf(row: NodeRun, d: nat): L.Lease {
    if row.executor.None? || row.claimedAt.None? then L.FREE
    else L.Lease(row.executor, Some(row.claimedAt.value + d + 1))
  }

  function LeasesOf(db: NodeDb, d: nat): map<nat, L.Lease> {
    map x | x in db.nodeRuns :: LeaseOf(db.nodeRuns[x], d)
  }

  predicate Wins(db: NodeDb, step: Step) {
    && step.action.Claim? && step.action.nodeRun in db.nodeRuns
    && ExecutorFree(db.nodeRuns[step.action.nodeRun], step.action.staleBefore)
  }

  predicate LetsGo(db: NodeDb, step: Step, x: nat) {
    step.action.Release? && step.action.nodeRun == x && x in db.nodeRuns
    && db.nodeRuns[x].executor == Some(step.action.replica)
  }

  function View(db: NodeDb, step: Step, d: nat): L.Step {
    L.At(step.now,
         match step.action
         case CreateNodeRun(x) => L.Add(x)
         case Claim(x, replica, _) => if Wins(db, step) then L.Grant({x}, replica, step.now + d + 1) else L.Other
         case Release(x, replica) => if LetsGo(db, step, x) then L.Release(x, replica) else L.Other
         case _ => L.Other)
  }

  function History(states: seq<NodeDb>, steps: seq<Step>, d: nat, start: int, k: nat): L.State
    requires k <= |steps| && |states| == |steps| + 1
  {
    if k == 0 then L.State(map[], map[], start, {})
    else L.Next(History(states, steps, d, start, k - 1), View(states[k - 1], steps[k - 1], d))
  }

  ghost predicate ClockFrom(steps: seq<Step>, start: int) {
    && (|steps| > 0 ==> start <= steps[0].now)
    && forall i, j :: 0 <= i < j < |steps| ==> steps[i].now <= steps[j].now
  }

  ghost predicate ClaimsStamped(db: NodeDb) {
    forall x <- db.nodeRuns :: db.nodeRuns[x].executor.Some? ==> db.nodeRuns[x].claimedAt.Some?
  }

  ghost predicate Matches(db: NodeDb, d: nat, s: L.State) {
    ClaimsStamped(db) && s.leases == LeasesOf(db, d) && s.used == db.nodeRuns.Keys
  }

  function Subject(step: Step): nat {
    match step.action
    case ApplyEvent(e) => e.nodeRun
    case a => a.nodeRun
  }

  /** A step touches one row, and its lease changes only by creation, a winning claim or a release. */
  lemma {:induction false} StepTouchesOne(db: NodeDb, step: Step, d: nat)
    requires Enabled(db, step) && ClaimsStamped(db)
    requires step.action.Claim? ==> step.action.staleBefore == step.now - d
    ensures var x, t := Subject(step), Next(db, step);
            && ClaimsStamped(t)
            && (x !in t.nodeRuns ==> t.nodeRuns == db.nodeRuns && !step.action.CreateNodeRun?)
            && (x in t.nodeRuns ==>
                  && t.nodeRuns == db.nodeRuns[x := t.nodeRuns[x]]
                  && (x in db.nodeRuns <==> !step.action.CreateNodeRun?)
                  && LeaseOf(t.nodeRuns[x], d) ==
                     if step.action.CreateNodeRun? || LetsGo(db, step, x) then L.FREE
                     else if Wins(db, step) then L.Lease(Some(step.action.replica), Some(step.now + d + 1))
                     else LeaseOf(db.nodeRuns[x], d))
  {
    var x, t := Subject(step), Next(db, step);
    if x in t.nodeRuns { assert t.nodeRuns == db.nodeRuns[x := t.nodeRuns[x]]; }
  }

  lemma LeaseTables(a: map<nat, NodeRun>, b: map<nat, NodeRun>, x: nat, d: nat)
    requires b == if x in b then a[x := b[x]] else a
    ensures forall y <- b :: y != x ==> y in a && LeaseOf(b[y], d) == LeaseOf(a[y], d)
  {
  }

  /** The lease table after a step, by what the step did. */
  lemma {:induction false} LeasesAfter(db: NodeDb, step: Step, d: nat)
    requires Enabled(db, step) && ClaimsStamped(db)
    requires step.action.Claim? ==> step.action.staleBefore == step.now - d
    ensures var x, before := Subject(step), LeasesOf(db, d);
            LeasesOf(Next(db, step), d) ==
            if step.action.CreateNodeRun? || LetsGo(db, step, x) then before[x := L.FREE]
            else if Wins(db, step) then before[x := L.Lease(Some(step.action.replica), Some(step.now + d + 1))]
            else before
  {
    StepTouchesOne(db, step, d);
    LeaseTables(db.nodeRuns, Next(db, step).nodeRuns, Subject(step), d);
  }

  lemma {:induction false} ViewFollows(db: NodeDb, step: Step, d: nat, s: L.State)
    requires Enabled(db, step) && s.leases == LeasesOf(db, d) && s.used == db.nodeRuns.Keys && s.clock <= step.now
    requires step.action.Claim? ==> step.action.staleBefore == step.now - d
    requires ClaimsStamped(db)
    ensures L.Legal(s, View(db, step, d))
    ensures var x, t := Subject(step), L.Next(s, View(db, step, d));
            && t.clock == step.now
            && t.used == (if step.action.CreateNodeRun? then s.used + {x} else s.used)
            && t.leases ==
               if step.action.CreateNodeRun? || LetsGo(db, step, x) then s.leases[x := L.FREE]
               else if Wins(db, step) then s.leases[x := L.Lease(Some(step.action.replica), Some(step.now + d + 1))]
               else s.leases
  {
  }

  lemma {:induction false} StepRefines(db: NodeDb, step: Step, d: nat, s: L.State)
    requires Enabled(db, step) && Matches(db, d, s) && s.clock <= step.now
    requires step.action.Claim? ==> step.action.staleBefore == step.now - d
    ensures L.Legal(s, View(db, step, d))
    ensures Matches(Next(db, step), d, L.Next(s, View(db, step, d)))
    ensures L.Next(s, View(db, step, d)).clock == step.now
  {
    ViewFollows(db, step, d, s);
    LeasesAfter(db, step, d);
    StepTouchesOne(db, step, d);
  }

  /** Two replicas never both hold an unexpired, unreleased executor claim of one node run. */
  lemma {:induction false} ExecutorsExclude(states: seq<NodeDb>, steps: seq<Step>, d: nat, start: int, k: nat)
    requires Run(states, steps) && Window(steps, d) && ClockFrom(steps, start) && k < |states|
    ensures var s := History(states, steps, d, start, k);
            && L.Exclusive(s) && L.Backed(s) && Matches(states[k], d, s)
            && s.clock == (if k == 0 then start else steps[k - 1].now)
  {
    if k > 0 {
      ExecutorsExclude(states, steps, d, start, k - 1);
      var s := History(states, steps, d, start, k - 1);
      assert steps[k - 1] in steps;
      StepRefines(states[k - 1], steps[k - 1], d, s);
      L.StepKeeps(s, View(states[k - 1], steps[k - 1], d));
    }
  }

  /** Only a winning claim or the holder's own release changes the executor of a node run. */
  lemma {:induction false} ExecutorKept(db: NodeDb, step: Step, x: nat)
    requires Enabled(db, step) && x in db.nodeRuns
    ensures var t := Next(db, step);
            && x in t.nodeRuns
            && (!LetsGo(db, step, x) && !(Wins(db, step) && step.action.nodeRun == x) ==>
                  && t.nodeRuns[x].executor == db.nodeRuns[x].executor
                  && t.nodeRuns[x].claimedAt == db.nodeRuns[x].claimedAt)
            && (step.action.Release? && !LetsGo(db, step, step.action.nodeRun) ==> t == db)
  {
    if step.action.Release? && step.action.nodeRun in db.nodeRuns && !LetsGo(db, step, step.action.nodeRun) {
      assert Next(db, step).nodeRuns == db.nodeRuns;
    }
  }

  /** From a winning claim until the next winning claim or the holder's release. */
  ghost predicate Undisturbed(states: seq<NodeDb>, steps: seq<Step>, x: nat, i: nat, j: nat)
    requires |states| == |steps| + 1 && j <= |steps|
  {
    forall k :: i < k < j ==>
      !LetsGo(states[k], steps[k], x) && !(Wins(states[k], steps[k]) && steps[k].action.nodeRun == x)
  }

  lemma {:induction false} HeldSince(states: seq<NodeDb>, steps: seq<Step>, x: nat, i: nat, j: nat)
    requires Run(states, steps) && i < j <= |steps|
    requires Wins(states[i], steps[i]) && steps[i].action.nodeRun == x && Undisturbed(states, steps, x, i, j)
    ensures x in states[j].nodeRuns
    ensures states[j].nodeRuns[x].executor == Some(steps[i].action.replica)
    ensures states[j].nodeRuns[x].claimedAt == Some(steps[i].now)
    decreases j
  {
    assert states[j] == Next(states[j - 1], steps[j - 1]);
    if i < j - 1 {
      HeldSince(states, steps, x, i, j - 1);
      ExecutorKept(states[j - 1], steps[j - 1], x);
    }
  }

  /**
   Successive winning claims of one node run with no release by the holder in between, whoever makes
   them, are more than the window apart.
   */
  lemma ClaimsFarApart(states: seq<NodeDb>, steps: seq<Step>, d: nat, x: nat, i: nat, j: nat)
    requires Run(states, steps) && Window(steps, d) && i < j < |steps|
    requires Wins(states[i], steps[i]) && steps[i].action.nodeRun == x
    requires Wins(states[j], steps[j]) && steps[j].action.nodeRun == x
    requires Undisturbed(states, steps, x, i, j)
    ensures steps[j].now - steps[i].now > d
  {
    HeldSince(states, steps, x, i, j);
    assert steps[j] in steps;
  }
}
