/**
 What every run of the archivers keeps: no row is lost, and a mark is archived only once its row is
 out of its table.
 */
module ArchiveRuns {
  import opened Wrappers
  import opened Archive

  function Last(versions: seq<string>): string {
    if versions == [] then "" else versions[|versions| - 1]
  }

  predicate Lingers(db: Store, key: RowKey) {
    key in db.tables ==> Visible(key, db.tables[key])
  }

  /** `content` is the given version of the row. */
  predicate Version(db: Store, line: Line) {
    && line.key in db.ever && Lingers(db, line.key)
    && 1 <= line.version <= |db.ever[line.key]| && db.ever[line.key][line.version - 1] == line.content
  }

  ghost predicate Filed(files: seq<seq<Line>>, key: RowKey) {
    exists f, line :: f in files && line in f && line.key == key
  }

  ghost predicate FilesSound(db: Store) {
    forall f <- db.files, line <- f :: Version(db, line)
  }

  ghost predicate NothingLost(db: Store) {
    && (forall k <- db.tables ::
          k in db.ever && db.tables[k].content == Last(db.ever[k]) && db.tables[k].version == |db.ever[k]|)
    && (forall k <- db.ever :: db.ever[k] != [] && (k in db.tables || Filed(db.files, k)))
  }

  ghost predicate MarksSound(db: Store) {
    forall id <- db.marks ::
      && id < db.nextMark && db.marks[id].key in db.ever && Lingers(db, db.marks[id].key)
      && (db.marks[id].archived ==> db.marks[id].key !in db.tables)
  }

  ghost predicate Sound(db: Store) {
    FilesSound(db) && NothingLost(db) && MarksSound(db)
  }

  // ---- what an archiver may rely on between its own steps ----

  ghost predicate RowSound(db: Store, r: Fetched) {
    r.mark in db.marks && db.marks[r.mark].key == r.key && Version(db, LineOf(r))
  }

  ghost predicate Gone(db: Store, id: nat) {
    id in db.marks && db.marks[id].key !in db.tables && db.marks[id].key in db.ever
  }

  ghost predicate AllGone(db: Store, ids: seq<nat>) {
    forall id <- ids :: Gone(db, id)
  }

  ghost predicate RowsSound(db: Store, rows: seq<Fetched>) {
    forall r <- rows :: RowSound(db, r)
  }

  ghost predicate PhaseSound(db: Store, p: Phase) {
    match p
    case Marking(candidates) => forall c <- candidates :: c.key in db.ever && Lingers(db, c.key)
    case Fetching(unread, claimed, rows) =>
      && (forall id <- claimed :: id in db.marks) && (forall id <- unread :: id in claimed)
      && RowsSound(db, rows)
      && (rows == [] ==> forall id <- claimed :: id in unread || Gone(db, id))
    case Writing(groups, claimed, rows) =>
      && RowsSound(db, rows) && (forall g <- groups :: RowsSound(db, g))
      && (forall r <- rows :: Filed(db.files, r.key) || exists g :: g in groups && r in g)
    case Deleting(todo, rows) =>
      && RowsSound(db, rows) && (forall r <- todo :: r in rows)
      && (forall r <- rows :: Filed(db.files, r.key) && (r in todo || Gone(db, r.mark)))
    case Completing(ids) => AllGone(db, ids)
    case _ => true
  }

  ghost predicate Inv(s: Sys) {
    Sound(s.db) && forall a <- s.archivers :: PhaseSound(s.db, s.archivers[a])
  }

  /** Everything a phase relies on survives any step of anybody else. */
  ghost predicate Later(a: Store, b: Store) {
    && (forall f <- a.files :: f in b.files)
    && (forall k <- a.ever :: k in b.ever && a.ever[k] <= b.ever[k])
    && (forall k <- a.ever :: Lingers(a, k) ==> Lingers(b, k))
    && (forall k <- b.tables :: k in a.tables || k !in a.ever)
    && (forall id <- a.marks :: id in b.marks && b.marks[id].key == a.marks[id].key)
  }

  lemma VersionSurvives(a: Store, b: Store, line: Line)
    requires Later(a, b) && Version(a, line)
    ensures Version(b, line)
  {
  }

  lemma RowsSurvive(a: Store, b: Store, rows: seq<Fetched>)
    requires Later(a, b) && RowsSound(a, rows)
    ensures RowsSound(b, rows)
  {
    forall r | r in rows ensures RowSound(b, r) {
      VersionSurvives(a, b, LineOf(r));
    }
  }

  lemma FiledSurvives(a: Store, b: Store)
    requires Later(a, b)
    ensures forall k :: Filed(a.files, k) ==> Filed(b.files, k)
  {
    forall k | Filed(a.files, k) ensures Filed(b.files, k) {
      var f, line :| f in a.files && line in f && line.key == k;
      assert f in b.files;
    }
  }

  lemma PhaseSurvives(a: Store, b: Store, p: Phase)
    requires Later(a, b) && PhaseSound(a, p)
    ensures PhaseSound(b, p)
  {
    FiledSurvives(a, b);
    match p
    case Fetching(_, _, rows) => RowsSurvive(a, b, rows);
    case Writing(groups, _, rows) =>
      RowsSurvive(a, b, rows);
      forall g | g in groups ensures RowsSound(b, g) { RowsSurvive(a, b, g); }
    case Deleting(_, rows) => RowsSurvive(a, b, rows);
    case _ =>
  }

  // ---- rows written by everybody else ----

  lemma StoredKeeps(s: Sys, step: Step)
    requires Inv(s) && Enabled(s, step) && !step.By?
    ensures Later(s.db, Stored(s.db, step.key, step.row)) && Sound(Stored(s.db, step.key, step.row))
  {
    var a, b := s.db, Stored(s.db, step.key, step.row);
    assert Last(b.ever[step.key]) == step.row.content;
    forall f, line | f in b.files && line in f ensures Version(b, line) {
      VersionSurvives(a, b, line);
    }
  }

  // ---- one move of one archiver ----

  lemma {:induction false} EffectKeepsKeys(db: Store, p: Phase, move: Move)
    requires CanMove(db, p, move) && forall id <- db.marks :: id < db.nextMark
    ensures var b := Effect(db, p, move);
            forall id <- db.marks :: id in b.marks && b.marks[id].key == db.marks[id].key
  {
  }

  /** A move of an archiver only takes rows out of the tables and only adds files. */
  lemma {:induction false} EffectKeepsRows(db: Store, p: Phase, move: Move)
    requires CanMove(db, p, move)
    ensures var b := Effect(db, p, move);
            && b.ever == db.ever && (forall f <- db.files :: f in b.files)
            && forall k <- b.tables :: k in db.tables && b.tables[k] == db.tables[k]
  {
  }

  lemma {:induction false} EffectIsLater(db: Store, p: Phase, move: Move)
    requires Sound(db) && CanMove(db, p, move)
    ensures Later(db, Effect(db, p, move))
  {
    EffectKeepsKeys(db, p, move);
    EffectKeepsRows(db, p, move);
  }

  lemma {:induction false} EffectKeepsFiles(db: Store, p: Phase, move: Move)
    requires Sound(db) && PhaseSound(db, p) && CanMove(db, p, move)
    ensures FilesSound(Effect(db, p, move))
  {
    var b := Effect(db, p, move);
    EffectIsLater(db, p, move);
    forall f, line | f in b.files && line in f ensures Version(b, line) {
      if f !in db.files {
        assert f == Lines(p.groups[0]);
        var i :| 0 <= i < |f| && f[i] == line;
        assert p.groups[0] in p.groups && p.groups[0][i] in p.groups[0];
        assert RowSound(db, p.groups[0][i]);
      }
      VersionSurvives(db, b, line);
    }
  }

  lemma {:induction false} EffectLosesNothing(db: Store, p: Phase, move: Move)
    requires Sound(db) && PhaseSound(db, p) && CanMove(db, p, move)
    ensures NothingLost(Effect(db, p, move))
  {
    EffectIsLater(db, p, move);
    FiledSurvives(db, Effect(db, p, move));
    if move.DeleteOne? {
      assert p.todo[0] in p.rows;
    }
  }

  lemma {:induction false} EffectKeepsMarks(db: Store, p: Phase, move: Move)
    requires Sound(db) && PhaseSound(db, p) && CanMove(db, p, move)
    ensures MarksSound(Effect(db, p, move))
  {
    match move
    case MarkOne => assert p.candidates[0] in p.candidates;
    case CompleteOne => assert p.ids[0] in p.ids;
    case _ =>
  }

  lemma {:induction false} FetchIsSound(db: Store, p: Phase)
    requires Sound(db) && PhaseSound(db, p) && CanMove(db, p, FetchOne)
    ensures PhaseSound(db, After(db, p, FetchOne))
  {
    var row, id := FetchRow(db.tables, db.marks, p.unread[0]), p.unread[0];
    assert id in p.unread;
    assert forall x :: x in p.unread ==> x == id || x in p.unread[1..];
    if row.Some? {
      assert db.tables[db.marks[id].key].content == Last(db.ever[db.marks[id].key]);
      assert RowSound(db, row.value);
    } else {
      assert Gone(db, id);
    }
  }

  lemma {:induction false} WriteIsSound(db: Store, p: Phase)
    requires Sound(db) && PhaseSound(db, p) && CanMove(db, p, WriteOne)
    ensures PhaseSound(Effect(db, p, WriteOne), After(db, p, WriteOne))
  {
    var b := Effect(db, p, WriteOne);
    EffectIsLater(db, p, WriteOne);
    PhaseSurvives(db, b, p);
    assert forall g :: g in p.groups ==> g == p.groups[0] || g in p.groups[1..];
    forall r | r in p.groups[0] ensures Filed(b.files, r.key) {
      var i :| 0 <= i < |p.groups[0]| && p.groups[0][i] == r;
      assert Lines(p.groups[0])[i].key == r.key && Lines(p.groups[0]) in b.files;
    }
  }

  lemma {:induction false} DeleteIsSound(db: Store, p: Phase)
    requires Sound(db) && PhaseSound(db, p) && CanMove(db, p, DeleteOne)
    ensures PhaseSound(Effect(db, p, DeleteOne), After(db, p, DeleteOne))
  {
    var b := Effect(db, p, DeleteOne);
    EffectIsLater(db, p, DeleteOne);
    PhaseSurvives(db, b, p);
    assert p.todo[0] in p.rows && RowSound(db, p.todo[0]);
    assert forall r :: r in p.todo ==> r == p.todo[0] || r in p.todo[1..];
  }

  lemma {:induction false} DeletedRowsAreGone(db: Store, p: Phase)
    requires PhaseSound(db, p) && CanMove(db, p, DeleteDone)
    ensures AllGone(db, MarkIds(p.rows))
  {
    forall id | id in MarkIds(p.rows) ensures Gone(db, id) {
      var i :| 0 <= i < |p.rows| && p.rows[i].mark == id;
      assert p.rows[i] in p.rows;
    }
  }

  lemma {:induction false} AfterIsSound(db: Store, p: Phase, move: Move)
    requires Sound(db) && PhaseSound(db, p) && CanMove(db, p, move)
    ensures PhaseSound(Effect(db, p, move), After(db, p, move))
  {
    EffectIsLater(db, p, move);
    match move
    case FetchOne => FetchIsSound(db, p);
    case WriteOne => WriteIsSound(db, p);
    case DeleteOne => DeleteIsSound(db, p);
    case DeleteDone => DeletedRowsAreGone(db, p);
    case MarkOne => PhaseSurvives(db, Effect(db, p, move), p);
    case CompleteOne => PhaseSurvives(db, Effect(db, p, move), p);
    case _ =>
  }

  lemma {:induction false} StepIsLater(s: Sys, step: Step)
    requires Inv(s) && Enabled(s, step)
    ensures Later(s.db, Next(s, step).db)
  {
    if step.By? {
      EffectIsLater(s.db, s.archivers[step.archiver], step.move);
    } else {
      StoredKeeps(s, step);
    }
  }

  lemma {:induction false} StepKeeps(s: Sys, step: Step)
    requires Inv(s) && Enabled(s, step)
    ensures Inv(Next(s, step))
  {
    var t := Next(s, step);
    if step.By? {
      var p := s.archivers[step.archiver];
      EffectIsLater(s.db, p, step.move);
      EffectKeepsFiles(s.db, p, step.move);
      EffectLosesNothing(s.db, p, step.move);
      EffectKeepsMarks(s.db, p, step.move);
      AfterIsSound(s.db, p, step.move);
    } else {
      StoredKeeps(s, step);
    }
    forall a | a in t.archivers ensures PhaseSound(t.db, t.archivers[a]) {
      if t.archivers[a] == s.archivers[a] { PhaseSurvives(s.db, t.db, s.archivers[a]); }
    }
  }

  // ---- runs ----

  lemma {:induction false} RunKeeps(states: seq<Sys>, steps: seq<Step>, k: nat)
    requires Run(states, steps) && k < |states|
    ensures Inv(states[k])
  {
    if k > 0 {
      RunKeeps(states, steps, k - 1);
      StepKeeps(states[k - 1], steps[k - 1]);
    }
  }

  /**
   Whatever the archivers do and wherever they crash, every row ever stored is still in its table or
   in a renamed archive file, with a content it once had; and an archived mark never points at a row
   that is still in its table.
   */
  lemma NoRowIsLost(states: seq<Sys>, steps: seq<Step>, k: nat)
    requires Run(states, steps) && k < |states|
    ensures var db := states[k].db;
            && (forall key <- db.ever :: key in db.tables || Filed(db.files, key))
            && (forall f <- db.files, line <- f :: line.key in db.ever && line.content in db.ever[line.key])
            && (forall id <- db.marks :: db.marks[id].archived ==> db.marks[id].key !in db.tables)
  {
    RunKeeps(states, steps, k);
  }

  // ---- completed marks ----

  lemma {:induction false} StepKeepsArchived(s: Sys, step: Step, id: nat)
    requires Inv(s) && Enabled(s, step) && id in s.db.marks && s.db.marks[id].archived
    ensures id in Next(s, step).db.marks && Next(s, step).db.marks[id].archived
  {
  }

  lemma {:induction false} ArchivedStays(states: seq<Sys>, steps: seq<Step>, i: nat, j: nat, id: nat)
    requires Run(states, steps) && i <= j < |states| && id in states[i].db.marks && states[i].db.marks[id].archived
    ensures id in states[j].db.marks && states[j].db.marks[id].archived
    decreases j
  {
    if i < j {
      ArchivedStays(states, steps, i, j - 1, id);
      RunKeeps(states, steps, j - 1);
      StepKeepsArchived(states[j - 1], steps[j - 1], id);
    }
  }

  /** Archiver `a` does nothing but complete marks from state i to state j. */
  ghost predicate OnlyCompletes(steps: seq<Step>, a: nat, i: nat, j: nat)
    requires j <= |steps|
  {
    forall k :: i <= k < j && steps[k].By? && steps[k].archiver == a ==> steps[k].move.CompleteOne?
  }

  ghost predicate ListedOrArchived(s: Sys, a: nat, id: nat) {
    && a in s.archivers && s.archivers[a].Completing?
    && (id in s.archivers[a].ids || (id in s.db.marks && s.db.marks[id].archived))
  }

  lemma {:induction false} StepKeepsListed(s: Sys, step: Step, a: nat, id: nat)
    requires Inv(s) && Enabled(s, step) && ListedOrArchived(s, a, id)
    requires step.By? && step.archiver == a ==> step.move.CompleteOne?
    ensures ListedOrArchived(Next(s, step), a, id)
  {
    if id in s.archivers[a].ids {
      if step.By? && step.archiver == a {
        assert id == s.archivers[a].ids[0] || id in s.archivers[a].ids[1..];
        assert PhaseSound(s.db, s.archivers[a]) && Gone(s.db, id);
      }
    } else {
      StepKeepsArchived(s, step, id);
    }
  }

  /** What is not archived yet is still on the archiver's list. */
  lemma {:induction false} CompletingGoesOn(
      states: seq<Sys>, steps: seq<Step>, a: nat, ids: seq<nat>, i: nat, j: nat, id: nat)
    requires Run(states, steps) && i <= j < |states| && OnlyCompletes(steps, a, i, j)
    requires a in states[i].archivers && states[i].archivers[a] == Completing(ids) && id in ids
    ensures ListedOrArchived(states[j], a, id)
    decreases j
  {
    if i < j {
      CompletingGoesOn(states, steps, a, ids, i, j - 1, id);
      RunKeeps(states, steps, j - 1);
      StepKeepsListed(states[j - 1], steps[j - 1], a, id);
    }
  }

  /**
   Whatever other archivers do meanwhile, every mark an archiver set out to complete is archived when
   it finishes, and stays archived; its row is gone from its table for good.
   */
  lemma CompletedMarksStayArchived(
      states: seq<Sys>, steps: seq<Step>, a: nat, ids: seq<nat>, i: nat, j: nat, k: nat, id: nat)
    requires Run(states, steps) && i <= j <= k < |states| && OnlyCompletes(steps, a, i, j)
    requires a in states[i].archivers && states[i].archivers[a] == Completing(ids) && id in ids
    requires a in states[j].archivers && states[j].archivers[a] == Completing([])
    ensures id in states[k].db.marks && states[k].db.marks[id].archived
    ensures states[k].db.marks[id].key !in states[k].db.tables
  {
    CompletingGoesOn(states, steps, a, ids, i, j, id);
    ArchivedStays(states, steps, j, k, id);
    NoRowIsLost(states, steps, k);
  }

  /** Two marks never name the same row. */
  lemma {:induction false} OneMarkPerRow(states: seq<Sys>, steps: seq<Step>, k: nat)
    requires Run(states, steps) && k < |states|
    ensures forall a <- states[k].db.marks, b <- states[k].db.marks ::
              states[k].db.marks[a].key == states[k].db.marks[b].key ==> a == b
  {
    if k > 0 {
      OneMarkPerRow(states, steps, k - 1);
      RunKeeps(states, steps, k - 1);
      assert states[k] == Next(states[k - 1], steps[k - 1]);
    }
  }

  lemma Extend(states: seq<Sys>, steps: seq<Step>, step: Step) returns (states': seq<Sys>, steps': seq<Step>)
    requires Run(states, steps) && Enabled(states[|steps|], step)
    ensures Run(states', steps') && states'[|steps'|] == Next(states[|steps|], step) && steps' == steps + [step]
  {
    states', steps' := states + [Next(states[|steps|], step)], steps + [step];
  }
}
