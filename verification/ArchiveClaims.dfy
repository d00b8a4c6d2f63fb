/**
 The read-back of a claim of archive marks, right after its update and any number of steps later.
 */
module ArchiveClaims {
  import opened Wrappers
  import opened Archive
  import opened ArchiveRuns
  import L = Leases

  function MarkLeases(marks: map<nat, Mark>): map<nat, L.Lease> {
    map id | id in marks :: marks[id].lease
  }

  /**
   A read-back right after its claim returns the claimed marks exactly when no other mark carried
   (who, until) before.
   */
  lemma MarkReadBackIsReturning(marks: map<nat, Mark>, picked: seq<nat>, who: L.Owner, until: int)
    requires forall id <- picked :: id in marks
    ensures var rows := set id | id in picked;
            MarksReadBack(ClaimMarks(marks, picked, who, until), who, until) == rows
            <==> MarksReadBack(marks, who, until) <= rows
  {
    var rows := set id | id in picked;
    var after := ClaimMarks(marks, picked, who, until);
    L.ReadBackIsReturning(MarkLeases(marks), rows, who, until);
    assert L.ReadBack(MarkLeases(marks), who, until) == MarksReadBack(marks, who, until);
    assert MarkLeases(after) == L.Granted(MarkLeases(marks), rows, who, until);
    assert L.ReadBack(MarkLeases(after), who, until) == MarksReadBack(after, who, until);
  }

  ghost predicate ArchivedFree(marks: map<nat, Mark>) {
    forall id <- marks :: marks[id].archived ==> marks[id].lease == L.FREE
  }

  lemma {:induction false} ArchivedStayFree(states: seq<Sys>, steps: seq<Step>, k: nat)
    requires Run(states, steps) && k < |states|
    ensures ArchivedFree(states[k].db.marks)
  {
    if k > 0 {
      ArchivedStayFree(states, steps, k - 1);
      assert states[k] == Next(states[k - 1], steps[k - 1]);
    }
  }

  /**
   In every reachable state all the marks a read-back can return, the extra ones included, are open
   to the claimant: it never hands out an archived mark.
   */
  lemma ReadBackIsOpen(states: seq<Sys>, steps: seq<Step>, k: nat, who: L.Owner, now: int, until: int)
    requires Run(states, steps) && k < |states|
    ensures forall id <- MarksReadBack(states[k].db.marks, who, until) :: OpenFor(states[k].db.marks[id], who, now)
  {
    ArchivedStayFree(states, steps, k);
  }

  // ---- any number of steps later ----

  /** What a move does to the claim columns of mark `id`. */
  function MarkTouch(db: Store, p: Phase, move: Move, id: nat): L.Touch
    requires CanMove(db, p, move)
  {
    match move
    case MarkOne => if id == db.nextMark && !Marked(db.marks, p.candidates[0].key) then L.Gets(L.FREE) else L.Untouched
    case Claim(who, _, until, picked, _) =>
      if id in picked then L.Gets(L.Lease(Some(who), Some(until))) else L.Untouched
    case CompleteOne => if id == p.ids[0] && id in db.marks then L.Gets(L.FREE) else L.Untouched
    case FailOne => if id == p.ids[0] && id in db.marks && !db.marks[id].archived then L.Gets(L.FREE) else L.Untouched
    case _ => L.Untouched
  }

  lemma {:induction false} MarkTouchIsRight(db: Store, p: Phase, move: Move, id: nat)
    requires CanMove(db, p, move)
    ensures L.RowOf(MarkLeases(Effect(db, p, move).marks), id)
            == L.Touched(L.RowOf(MarkLeases(db.marks), id), MarkTouch(db, p, move, id))
  {
  }

  function StepTouch(s: Sys, step: Step, id: nat): L.Touch
    requires Enabled(s, step)
  {
    if step.By? then MarkTouch(s.db, s.archivers[step.archiver], step.move, id) else L.Untouched
  }

  lemma StepTouchIsRight(s: Sys, step: Step, id: nat)
    requires Enabled(s, step)
    ensures L.RowOf(MarkLeases(Next(s, step).db.marks), id)
            == L.Touched(L.RowOf(MarkLeases(s.db.marks), id), StepTouch(s, step, id))
  {
    if step.By? { MarkTouchIsRight(s.db, s.archivers[step.archiver], step.move, id); }
  }

  function Touches(states: seq<Sys>, steps: seq<Step>, id: nat): (t: seq<L.Touch>)
    requires Run(states, steps)
    ensures |t| == |steps|
  {
    seq(|steps|, k requires 0 <= k < |steps| && Enabled(states[k], steps[k]) => StepTouch(states[k], steps[k], id))
  }

  /**
   The claim is step i, the read-back runs in state j. It returns mark `id` if and only if the claim
   picked it or it carried (who, until) before, and nothing has completed, failed or re-granted it
   since; or a later claim of the same pair picked it and nothing since.
   */
  lemma MarksReadBackLater(
      states: seq<Sys>, steps: seq<Step>, i: nat, j: nat, id: nat, who: L.Owner, until: int)
    requires Run(states, steps) && i < j < |states| && steps[i].By? && steps[i].move.Claim?
    requires steps[i].move.who == who && steps[i].move.until == until
    ensures id in MarksReadBack(states[j].db.marks, who, until) <==>
            || ((id in steps[i].move.picked || id in MarksReadBack(states[i].db.marks, who, until))
                && L.LeftAlone(Touches(states, steps, id), i + 1, j))
            || L.WrittenBetween(Touches(states, steps, id), L.Lease(Some(who), Some(until)), i + 1, j)
  {
    var rows := seq(|states|, k requires 0 <= k < |states| => L.RowOf(MarkLeases(states[k].db.marks), id));
    var touches := Touches(states, steps, id);
    forall m | 0 <= m < |steps| ensures rows[m + 1] == L.Touched(rows[m], touches[m]) {
      StepTouchIsRight(states[m], steps[m], id);
    }
    L.CarriesIff(rows, touches, i + 1, j, L.Lease(Some(who), Some(until)));
    assert rows[i + 1] == L.Touched(rows[i], touches[i]);
  }

  // ---- an archiver's own read-back ----

  /** Archiver `a` moves in none of these steps. */
  ghost predicate Rests(steps: seq<Step>, a: nat, i: nat, j: nat)
    requires j <= |steps|
  {
    forall k :: i <= k < j ==> !(steps[k].By? && steps[k].archiver == a)
  }

  lemma {:induction false} RestingKeepsPhase(states: seq<Sys>, steps: seq<Step>, a: nat, i: nat, j: nat)
    requires Run(states, steps) && i <= j < |states| && Rests(steps, a, i, j) && a in states[i].archivers
    ensures a in states[j].archivers && states[j].archivers[a] == states[i].archivers[a]
    decreases j
  {
    if i < j { RestingKeepsPhase(states, steps, a, i, j - 1); }
  }

  /**
   On MySQL an archiver goes on with what its read-back returns: the marks its update picked or that
   carried its pair before and nobody touched since, and those another claim of its pair picked meanwhile.
   */
  lemma AnswerIsWhatWasLeft(
      states: seq<Sys>, steps: seq<Step>, i: nat, j: nat, a: nat, who: L.Owner, now: int, until: int,
      picked: seq<nat>, answer: seq<nat>, id: nat)
    requires Run(states, steps) && i < j < |steps| && Rests(steps, a, i + 1, j)
    requires steps[i] == By(a, Claim(who, now, until, picked, false)) && steps[j] == By(a, ReadBack(answer))
    ensures id in answer <==>
            || ((id in picked || id in MarksReadBack(states[i].db.marks, who, until))
                && L.LeftAlone(Touches(states, steps, id), i + 1, j))
            || L.WrittenBetween(Touches(states, steps, id), L.Lease(Some(who), Some(until)), i + 1, j)
  {
    RestingKeepsPhase(states, steps, a, i + 1, j);
    MarksReadBackLater(states, steps, i, j, id, who, until);
  }
}
