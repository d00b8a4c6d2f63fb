/**
 Claims on action dispatches: what a read-back returns, and exactly when the claims exclude each other.
 */
module DispatchClaims {
  import opened Wrappers
  import opened Selection
  import opened Dispatches
  import L = Leases

  function DispatchLeases(rows: map<nat, Dispatch>): map<nat, L.Lease> {
    map id | id in rows :: rows[id].lease
  }

  function ReadBack(rows: map<nat, Dispatch>, who: L.Owner, until: int): set<nat> {
    set id | id in rows && rows[id].lease == L.Lease(Some(who), Some(until))
  }

  // ---- the read-back ----

  /**
   A read-back right after its claim returns the claimed dispatches exactly when no other one carried
   (who, until) before, and it never returns a published one.
   */
  lemma ReadBackIsReturning(
      states: seq<Outbox>, steps: seq<Step>, k: nat, who: L.Owner, now: int, until: int, limit: int, skipped: set<nat>)
    requires Run(states, steps) && k < |states|
    ensures var rows := states[k].rows;
            var picked := ClaimPick(rows, who, now, limit, skipped);
            var after := ClaimRows(rows, picked, who, now, until);
            && (ReadBack(after, who, until) == picked <==> ReadBack(rows, who, until) <= picked)
            && forall id <- ReadBack(after, who, until) :: after[id].publishedAt.None?
  {
    RunKeeps(states, steps, k);
    var rows := states[k].rows;
    var picked := ClaimPick(rows, who, now, limit, skipped);
    var after := ClaimRows(rows, picked, who, now, until);
    L.ReadBackIsReturning(DispatchLeases(rows), picked, who, until);
    assert L.ReadBack(DispatchLeases(rows), who, until) == ReadBack(rows, who, until);
    assert DispatchLeases(after) == L.Granted(DispatchLeases(rows), picked, who, until);
    assert L.ReadBack(DispatchLeases(after), who, until) == ReadBack(after, who, until);
  }

  /** The dispatches a step grants. */
  ghost function Granted(o: Outbox, step: Step): set<nat> {
    match step.action
    case Claim(who, until, limit, skipped) => ClaimPick(o.rows, who, step.now, limit, skipped)
    case _ => {}
  }

  ghost function DispatchTouch(o: Outbox, step: Step, id: nat): L.Touch {
    match step.action
    case Enqueue(x, key, _) => if x == id && !Held(o.rows, key) then L.Gets(L.FREE) else L.Untouched
    case Claim(who, until, _, _) =>
      if id in Granted(o, step) then L.Gets(L.Lease(Some(who), Some(until))) else L.Untouched
    case Published(x, _) => if x == id && id in o.rows then L.Gets(L.FREE) else L.Untouched
    case Failed(x, _) => if x == id && id in o.rows then L.Gets(L.FREE) else L.Untouched
    case Archive(x) => if x == id then L.Gone else L.Untouched
  }

  lemma {:induction false} DispatchTouchIsRight(o: Outbox, step: Step, id: nat)
    ensures L.RowOf(DispatchLeases(Next(o, step).rows), id)
            == L.Touched(L.RowOf(DispatchLeases(o.rows), id), DispatchTouch(o, step, id))
  {
  }

  ghost function Touches(states: seq<Outbox>, steps: seq<Step>, id: nat): (t: seq<L.Touch>)
    requires |states| == |steps| + 1
    ensures |t| == |steps|
  {
    seq(|steps|, k requires 0 <= k < |steps| => DispatchTouch(states[k], steps[k], id))
  }

  /**
   Any number of steps after its claim, the read-back returns a dispatch if and only if the claim
   granted it or it carried (who, until) before, and nothing has published, failed, re-granted or
   archived it since; or a later claim of the same pair granted it and nothing since.
   */
  lemma ReadBackLater(
      states: seq<Outbox>, steps: seq<Step>, i: nat, j: nat, id: nat, who: L.Owner, until: int)
    requires Run(states, steps) && i < j < |states|
    requires steps[i].action.Claim? && steps[i].action.who == who && steps[i].action.until == until
    ensures id in ReadBack(states[j].rows, who, until) <==>
            || ((id in Granted(states[i], steps[i]) || id in ReadBack(states[i].rows, who, until))
                && L.LeftAlone(Touches(states, steps, id), i + 1, j))
            || L.WrittenBetween(Touches(states, steps, id), L.Lease(Some(who), Some(until)), i + 1, j)
  {
    var rows := seq(|states|, k requires 0 <= k < |states| => L.RowOf(DispatchLeases(states[k].rows), id));
    var touches := Touches(states, steps, id);
    forall m | 0 <= m < |steps| ensures rows[m + 1] == L.Touched(rows[m], touches[m]) {
      DispatchTouchIsRight(states[m], steps[m], id);
    }
    L.CarriesIff(rows, touches, i + 1, j, L.Lease(Some(who), Some(until)));
    assert rows[i + 1] == L.Touched(rows[i], touches[i]);
  }

  // ---- exclusion ----

  /** The claims that matter: those on dispatches still to be published. */
  function OpenLeases(rows: map<nat, Dispatch>): map<nat, L.Lease> {
    map id | id in rows && rows[id].publishedAt.None? :: rows[id].lease
  }

  /** A failure reported for a dispatch that somebody else holds an unexpired claim of. */
  predicate FreesAnother(o: Outbox, step: Step) {
    && step.action.Failed? && step.action.id in o.rows && o.rows[step.action.id].publishedAt.None?
    && var lease := o.rows[step.action.id].lease;
       lease.owner.Some? && lease.owner != Some(step.action.who) && lease.until.Some? && lease.until.value > step.now
  }

  /** What a step means for those claims. Publishing takes a dispatch out of everybody's reach. */
  ghost function View(o: Outbox, step: Step): L.Step {
    L.At(step.now,
         match step.action
         case Enqueue(id, key, _) => if Held(o.rows, key) then L.Other else L.Add(id)
         case Claim(who, until, _, _) => L.Grant(Granted(o, step), who, until)
         case Published(id, _) => L.Remove(id)
         case Failed(id, who) =>
           if id in o.rows && o.rows[id].publishedAt.None? && o.rows[id].lease.owner.Some? && !FreesAnother(o, step)
           then L.Release(id, o.rows[id].lease.owner.value) else L.Other
         case Archive(_) => L.Other)
  }

  ghost function History(states: seq<Outbox>, steps: seq<Step>, start: int, k: nat): L.State
    requires k <= |steps| && |states| == |steps| + 1
  {
    if k == 0 then L.State(map[], map[], start, {})
    else L.Next(History(states, steps, start, k - 1), View(states[k - 1], steps[k - 1]))
  }

  ghost predicate ClockFrom(steps: seq<Step>, start: int) {
    && (|steps| > 0 ==> start <= steps[0].now)
    && forall i, j :: 0 <= i < j < |steps| ==> steps[i].now <= steps[j].now
  }

  ghost predicate Matches(o: Outbox, s: L.State) {
    s.leases == OpenLeases(o.rows) && s.used <= o.used
  }

  /** Every free claim has no deadline and every owned one has. */
  ghost predicate Whole(o: Outbox) {
    forall id <- o.rows :: o.rows[id].lease.owner.None? ==> o.rows[id].lease == L.FREE
  }

  lemma {:induction false} StepKeepsWhole(o: Outbox, step: Step)
    requires Whole(o)
    ensures Whole(Next(o, step))
  {
  }

  lemma {:induction false} ClaimRefines(o: Outbox, step: Step, s: L.State)
    requires Matches(o, s) && s.clock <= step.now && step.action.Claim?
    ensures L.Legal(s, View(o, step)) && Matches(Next(o, step), L.Next(s, View(o, step)))
  {
    assert L.Next(s, View(o, step)).leases == OpenLeases(Next(o, step).rows);
  }

  lemma {:induction false} FailureRefines(o: Outbox, step: Step, s: L.State)
    requires Whole(o) && Matches(o, s) && s.clock <= step.now && step.action.Failed? && !FreesAnother(o, step)
    ensures L.Legal(s, View(o, step)) && Matches(Next(o, step), L.Next(s, View(o, step)))
  {
    assert L.Next(s, View(o, step)).leases == OpenLeases(Next(o, step).rows);
  }

  lemma {:induction false} RestRefines(o: Outbox, step: Step, s: L.State)
    requires Sound(o) && Enabled(o, step) && Matches(o, s) && s.clock <= step.now
    requires !step.action.Claim? && !step.action.Failed?
    ensures L.Legal(s, View(o, step)) && Matches(Next(o, step), L.Next(s, View(o, step)))
  {
    assert L.Next(s, View(o, step)).leases == OpenLeases(Next(o, step).rows);
  }

  lemma {:induction false} StepRefines(o: Outbox, step: Step, s: L.State)
    requires Sound(o) && Whole(o) && Enabled(o, step) && Matches(o, s) && s.clock <= step.now && !FreesAnother(o, step)
    ensures L.Legal(s, View(o, step)) && Matches(Next(o, step), L.Next(s, View(o, step)))
    ensures L.Next(s, View(o, step)).clock == step.now
  {
    match step.action
    case Claim(_, _, _, _) => ClaimRefines(o, step, s);
    case Failed(_, _) => FailureRefines(o, step, s);
    case _ => RestRefines(o, step, s);
  }

  ghost predicate NobodyFreesAnother(states: seq<Outbox>, steps: seq<Step>, k: nat)
    requires k <= |steps| <= |states|
  {
    forall m :: 0 <= m < k ==> !FreesAnother(states[m], steps[m])
  }

  /**
   As long as no failure is reported for a dispatch that somebody else holds, two schedulers never
   both hold an unexpired claim of one unpublished dispatch.
   */
  lemma {:induction false} HoldersExclude(states: seq<Outbox>, steps: seq<Step>, start: int, k: nat)
    requires Run(states, steps) && ClockFrom(steps, start) && k < |states| && NobodyFreesAnother(states, steps, k)
    ensures var s := History(states, steps, start, k);
            && L.Exclusive(s) && L.Backed(s) && L.Told(s) && Matches(states[k], s) && Whole(states[k])
            && s.clock == (if k == 0 then start else steps[k - 1].now)
  {
    if k > 0 {
      HoldersExclude(states, steps, start, k - 1);
      RunKeeps(states, steps, k - 1);
      var s, o, step := History(states, steps, start, k - 1), states[k - 1], steps[k - 1];
      StepKeepsWhole(o, step);
      StepRefines(o, step, s);
      L.StepKeeps(s, View(o, step));
      L.StepKeepsTold(s, View(o, step));
    }
  }

  /** What the holders believe when such a failure comes: the claims are as before, the time is now. */
  ghost function JustFreed(states: seq<Outbox>, steps: seq<Step>, start: int, k: nat): L.State
    requires k < |steps| && |states| == |steps| + 1
  {
    History(states, steps, start, k).(leases := OpenLeases(states[k + 1].rows), clock := steps[k].now)
  }

  /** When somebody frees another's claim, that holder still believes in it. */
  lemma HolderStillBelieves(states: seq<Outbox>, steps: seq<Step>, start: int, k: nat)
    requires Run(states, steps) && ClockFrom(steps, start) && k < |steps| && NobodyFreesAnother(states, steps, k)
    requires FreesAnother(states[k], steps[k])
    ensures var id, s := steps[k].action.id, History(states, steps, start, k).(clock := steps[k].now);
            id in s.leases && L.Believes(s, id, states[k].rows[id].lease.owner.value)
    ensures var id := steps[k].action.id;
            OpenLeases(states[k + 1].rows) == History(states, steps, start, k).leases[id := L.FREE]
  {
    HoldersExclude(states, steps, start, k);
    var id, s := steps[k].action.id, History(states, steps, start, k);
    assert (id, states[k].rows[id].lease.owner.value) in s.beliefs;
    assert states[k + 1] == Next(states[k], steps[k]);
  }

  /**
   The first failure that does breaks it: the holder still believes in its claim, anybody else may
   claim the dispatch in the same second, and then two schedulers hold it.
   */
  lemma FreeingAnotherBreaksExclusion(
      states: seq<Outbox>, steps: seq<Step>, start: int, k: nat, who: L.Owner, until: int)
    requires Run(states, steps) && ClockFrom(steps, start) && k < |steps| && NobodyFreesAnother(states, steps, k)
    requires FreesAnother(states[k], steps[k]) && until > steps[k].now
    requires Some(who) != states[k].rows[steps[k].action.id].lease.owner
    ensures var id := steps[k].action.id;
            var grant := L.At(steps[k].now, L.Grant({id}, who, until));
            && id in ClaimPool(states[k + 1].rows, who, steps[k].now)
            && L.Legal(JustFreed(states, steps, start, k), grant)
            && !L.Exclusive(L.Next(JustFreed(states, steps, start, k), grant))
  {
    HolderStillBelieves(states, steps, start, k);
    var id, s := steps[k].action.id, History(states, steps, start, k).(clock := steps[k].now);
    L.FreedIsShared(s, id, states[k].rows[id].lease.owner.value, who, until);
  }

  /** Such a failure can come: nothing checks who reports it. */
  lemma AStrangerCanFail(now: int, until: int) returns (states: seq<Outbox>, steps: seq<Step>)
    requires until > now
    ensures Run(states, steps) && |steps| == 3
    ensures NobodyFreesAnother(states, steps, 2) && FreesAnother(states[2], steps[2])
  {
    var row := Dispatch("k", "c", 0, now, now, None, L.FREE);
    var held := row.(lease := L.Lease(Some("a"), Some(until)));
    var s1, s2 := Outbox(map[0 := row], {0}), Outbox(map[0 := held], {0});
    steps := [At(now, Enqueue(0, "k", "c")), At(now, Claim("a", until, 1, {})), At(now, Failed(0, "b"))];
    assert ClaimPool(s1.rows, "a", now) - {} == {0};
    assert ClaimPick(s1.rows, "a", now, 1, {}) == {0};
    assert Next(EMPTY, steps[0]) == s1 && Next(s1, steps[1]) == s2;
    states := [EMPTY, s1, s2, Next(s2, steps[2])];
  }
}
