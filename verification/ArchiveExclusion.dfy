/**
 Claims on archive marks carry a lease, but failing and completing a mark do not ask who holds it.
 Exactly when the claims exclude each other all the same.
 */
module ArchiveExclusion {
  import opened Wrappers
  import opened Archive
  import opened ArchiveRuns
  import opened ArchiveVersions
  import L = Leases

  /** Each archiver claims under its own name, and the clock, one time per step, never goes back. */
  ghost predicate Clocked(steps: seq<Step>, times: seq<int>, names: nat -> L.Owner, start: int) {
    && |times| == |steps|
    && (|times| > 0 ==> start <= times[0])
    && (forall i, j :: 0 <= i < j < |times| ==> times[i] <= times[j])
    && forall k :: 0 <= k < |steps| ==> ClaimsAs(steps[k], times[k], names)
  }

  predicate ClaimsAs(step: Step, time: int, names: nat -> L.Owner) {
    step.By? && step.move.Claim? ==> step.move.who == names(step.archiver) && step.move.now == time
  }

  /** The claims that matter: those on marks still to be archived. */
  function OpenLeases(marks: map<nat, Mark>): map<nat, L.Lease> {
    map id | id in marks && !marks[id].archived :: marks[id].lease
  }

  /** The mark a failing archiver is about to free. */
  ghost predicate Fails(s: Sys, step: Step, id: nat) {
    && step.By? && step.move.FailOne? && Enabled(s, step) && s.archivers[step.archiver].ids[0] == id
    && id in s.db.marks && !s.db.marks[id].archived
  }

  predicate HeldByAnother(m: Mark, who: L.Owner, now: int) {
    m.lease.owner.Some? && m.lease.owner != Some(who) && m.lease.until.Some? && m.lease.until.value > now
  }

  /** A failure of a mark that somebody else holds an unexpired claim of. */
  ghost predicate FreesAnother(s: Sys, step: Step, time: int, names: nat -> L.Owner) {
    exists id :: Fails(s, step, id) && HeldByAnother(s.db.marks[id], names(step.archiver), time)
  }

  /**
   What a move means for those claims. Completing a mark takes it out of everybody's reach; failing it
   lets its claim go, unless that claim is somebody else's.
   */
  ghost function MoveView(db: Store, p: Phase, move: Move, name: L.Owner, time: int): L.Action
    requires CanMove(db, p, move)
  {
    match move
    case MarkOne => if Marked(db.marks, p.candidates[0].key) then L.Other else L.Add(db.nextMark)
    case Claim(who, _, until, picked, _) => L.Grant((set id | id in picked), who, until)
    case CompleteOne => L.Remove(p.ids[0])
    case FailOne =>
      var id := p.ids[0];
      if id in db.marks && !db.marks[id].archived && db.marks[id].lease.owner.Some?
         && !HeldByAnother(db.marks[id], name, time)
      then L.Release(id, db.marks[id].lease.owner.value) else L.Other
    case _ => L.Other
  }

  ghost function View(s: Sys, step: Step, time: int, names: nat -> L.Owner): L.Step
    requires Enabled(s, step)
  {
    L.At(time,
         if step.By? then MoveView(s.db, s.archivers[step.archiver], step.move, names(step.archiver), time)
         else L.Other)
  }

  ghost function History(
      states: seq<Sys>, steps: seq<Step>, times: seq<int>, names: nat -> L.Owner, start: int, k: nat): L.State
    requires Run(states, steps) && |times| == |steps| && k <= |steps|
  {
    if k == 0 then L.State(map[], map[], start, {})
    else
      L.Next(History(states, steps, times, names, start, k - 1), View(states[k - 1], steps[k - 1], times[k - 1], names))
  }

  ghost predicate Matches(db: Store, s: L.State) {
    s.leases == OpenLeases(db.marks) && forall id <- s.used :: id < db.nextMark
  }

  /** Marks without an owner have no deadline, and mark ids are below the counter. */
  ghost predicate Whole(db: Store) {
    forall id <- db.marks :: id < db.nextMark && (db.marks[id].lease.owner.None? ==> db.marks[id].lease == L.FREE)
  }

  ghost predicate Refines(db: Store, p: Phase, move: Move, s: L.State, name: L.Owner, time: int)
    requires CanMove(db, p, move)
  {
    var step := L.At(time, MoveView(db, p, move, name, time));
    L.Legal(s, step) && Matches(Effect(db, p, move), L.Next(s, step))
  }

  lemma {:induction false} MarkingRefines(db: Store, p: Phase, move: Move, s: L.State, name: L.Owner, time: int)
    requires CanMove(db, p, move) && (move.MarkOne? || move.CompleteOne?)
    requires Matches(db, s) && Whole(db) && s.clock <= time
    ensures Refines(db, p, move, s, name, time)
  {
    var step := L.At(time, MoveView(db, p, move, name, time));
    assert L.Next(s, step).leases == OpenLeases(Effect(db, p, move).marks);
  }

  lemma StepRefines(s: Sys, step: Step, time: int, names: nat -> L.Owner, l: L.State)
    requires Enabled(s, step) && ClaimsAs(step, time, names) && Whole(s.db) && Matches(s.db, l) && l.clock <= time
    requires !FreesAnother(s, step, time, names)
    ensures L.Legal(l, View(s, step, time, names))
    ensures Matches(Next(s, step).db, L.Next(l, View(s, step, time, names)))
    ensures L.Next(l, View(s, step, time, names)).clock == time
  {
    if step.By? {
      var p, move, name := s.archivers[step.archiver], step.move, names(step.archiver);
      match move
      case Claim(_, _, _, _, _) =>
      case FailOne =>
        if p.ids[0] in s.db.marks && !s.db.marks[p.ids[0]].archived { assert Fails(s, step, p.ids[0]); }
      case MarkOne => MarkingRefines(s.db, p, move, l, name, time);
      case CompleteOne => MarkingRefines(s.db, p, move, l, name, time);
      case _ =>
    }
  }

  lemma {:induction false} MoveKeepsWhole(db: Store, p: Phase, move: Move)
    requires Whole(db) && CanMove(db, p, move)
    ensures Whole(Effect(db, p, move))
  {
  }

  lemma StepKeepsWhole(s: Sys, step: Step)
    requires Whole(s.db) && Enabled(s, step)
    ensures Whole(Next(s, step).db)
  {
    if step.By? { MoveKeepsWhole(s.db, s.archivers[step.archiver], step.move); }
  }

  ghost predicate NobodyFreesAnother(states: seq<Sys>, steps: seq<Step>, times: seq<int>, names: nat -> L.Owner, k: nat)
    requires k <= |steps| == |times| && |steps| <= |states|
  {
    forall m :: 0 <= m < k ==> !FreesAnother(states[m], steps[m], times[m], names)
  }

  /**
   As long as no archiver fails a mark that somebody else holds, two archivers never both hold an
   unexpired claim of one mark that is still to be archived. Completing somebody else's mark is harmless.
   */
  lemma {:induction false} HoldersExclude(
      states: seq<Sys>, steps: seq<Step>, times: seq<int>, names: nat -> L.Owner, start: int, k: nat)
    requires Run(states, steps) && Clocked(steps, times, names, start) && k < |states|
    requires NobodyFreesAnother(states, steps, times, names, k)
    ensures var s := History(states, steps, times, names, start, k);
            && L.Exclusive(s) && L.Backed(s) && L.Told(s) && Matches(states[k].db, s) && Whole(states[k].db)
            && s.clock == (if k == 0 then start else times[k - 1])
  {
    if k > 0 {
      HoldersExclude(states, steps, times, names, start, k - 1);
      var l, s, step := History(states, steps, times, names, start, k - 1), states[k - 1], steps[k - 1];
      StepKeepsWhole(s, step);
      StepRefines(s, step, times[k - 1], names, l);
      L.StepKeeps(l, View(s, step, times[k - 1], names));
      L.StepKeepsTold(l, View(s, step, times[k - 1], names));
    }
  }

  /** What the archivers believe when such a failure comes: the claims are as after it, the time is now. */
  ghost function JustFreed(
      states: seq<Sys>, steps: seq<Step>, times: seq<int>, names: nat -> L.Owner, start: int, k: nat): L.State
    requires Run(states, steps) && |times| == |steps| && k < |steps|
  {
    History(states, steps, times, names, start, k).(leases := OpenLeases(states[k + 1].db.marks), clock := times[k])
  }

  lemma OwnerWasTold(db: Store, s: L.State, id: nat)
    requires Matches(db, s) && L.Told(s)
    requires id in db.marks && !db.marks[id].archived && db.marks[id].lease.owner.Some?
    ensures id in s.leases && s.leases[id] == db.marks[id].lease
    ensures var key := (id, db.marks[id].lease.owner.value);
            key in s.beliefs && db.marks[id].lease.until == Some(s.beliefs[key])
  {
    assert id in s.leases;
  }

  lemma FailureFrees(s: Sys, step: Step, id: nat)
    requires Fails(s, step, id)
    ensures OpenLeases(Next(s, step).db.marks) == OpenLeases(s.db.marks)[id := L.FREE]
  {
  }

  /** When somebody frees another's mark, that holder still believes in its claim. */
  lemma HolderStillBelieves(
      states: seq<Sys>, steps: seq<Step>, times: seq<int>, names: nat -> L.Owner, start: int, k: nat, id: nat)
    requires Run(states, steps) && Clocked(steps, times, names, start) && k < |steps|
    requires NobodyFreesAnother(states, steps, times, names, k)
    requires Fails(states[k], steps[k], id)
    requires HeldByAnother(states[k].db.marks[id], names(steps[k].archiver), times[k])
    ensures var s := History(states, steps, times, names, start, k);
            && id in s.leases && L.Believes(s.(clock := times[k]), id, states[k].db.marks[id].lease.owner.value)
            && OpenLeases(states[k + 1].db.marks) == s.leases[id := L.FREE]
  {
    HoldersExclude(states, steps, times, names, start, k);
    OwnerWasTold(states[k].db, History(states, steps, times, names, start, k), id);
    FailureFrees(states[k], steps[k], id);
  }

  /**
   The first failure that does breaks it: the mark is open to every archiver in the same second, while
   its holder still believes in its claim, so a claim by anybody else is the second one.
   */
  lemma FreeingAnotherBreaksExclusion(
      states: seq<Sys>, steps: seq<Step>, times: seq<int>, names: nat -> L.Owner, start: int, k: nat, id: nat,
      who: L.Owner, until: int)
    requires Run(states, steps) && Clocked(steps, times, names, start) && k < |steps|
    requires NobodyFreesAnother(states, steps, times, names, k)
    requires Fails(states[k], steps[k], id)
    requires HeldByAnother(states[k].db.marks[id], names(steps[k].archiver), times[k])
    requires Some(who) != states[k].db.marks[id].lease.owner && until > times[k]
    ensures var grant := L.At(times[k], L.Grant({id}, who, until));
            && id in states[k + 1].db.marks && OpenFor(states[k + 1].db.marks[id], who, times[k])
            && L.Legal(JustFreed(states, steps, times, names, start, k), grant)
            && !L.Exclusive(L.Next(JustFreed(states, steps, times, names, start, k), grant))
  {
    HolderStillBelieves(states, steps, times, names, start, k, id);
    var s := History(states, steps, times, names, start, k).(clock := times[k]);
    L.FreedIsShared(s, id, states[k].db.marks[id].lease.owner.value, who, until);
    assert id in OpenLeases(states[k + 1].db.marks);
  }

  // ---- it happens ----

  /** A claim of the mark `id` that its archiver still relies on at time `now`. */
  predicate Holds(s: Sys, steps: seq<Step>, a: nat, id: nat, now: int) {
    && a in s.archivers && s.archivers[a].Fetching? && id in s.archivers[a].claimed
    && exists step <- steps :: step.By? && step.archiver == a && step.move.Claim?
                              && id in step.move.picked && step.move.until > now
  }

  lemma ThreeArchivers() returns (states: seq<Sys>, steps: seq<Step>)
    ensures Run(states, steps)
    ensures states[|steps|] == Sys(Store(map[KEY := OLD], HELD, 1, [], map[KEY := ["old"]]),
                                   map[1 := Fetching([0], [0], []), 2 := Idle, 3 := Idle])
  {
    states, steps := RowIsMarked(map[1 := Idle, 2 := Idle, 3 := Idle]);
    states, steps := Extend(states, steps, By(1, Claim("a", 0, 60, [0], true)));
    assert states[|steps|].db.marks == HELD;
  }

  /**
   An archiver that fails a batch after its lease ran out frees the marks for a third, while the second
   still holds an unexpired claim.
   */
  lemma LateFailureBreaksAClaim() returns (states: seq<Sys>, steps: seq<Step>)
    ensures Run(states, steps)
    ensures Holds(states[|steps|], steps, 2, 0, 61) && Holds(states[|steps|], steps, 3, 0, 61)
  {
    states, steps := ThreeArchivers();
    states, steps := Extend(states, steps, By(2, Claim("b", 60, 120, [0], true)));
    assert states[|steps|].db.marks == map[0 := Mark(KEY, 0, 0, false, L.Lease(Some("b"), Some(120)), 2)];
    states, steps := Extend(states, steps, By(1, GiveUp));
    states, steps := Extend(states, steps, By(1, FailOne));
    assert states[|steps|].db.marks == map[0 := Mark(KEY, 0, 0, false, L.FREE, 2)];
    states, steps := Extend(states, steps, By(3, Claim("c", 61, 121, [0], true)));
    assert steps[|steps| - 1] in steps && By(2, Claim("b", 60, 120, [0], true)) in steps;
  }
}
