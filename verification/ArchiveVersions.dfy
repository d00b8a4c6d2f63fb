/**
 Which version of a row ends up in the archive files. A row can be changed after an archiver has
 fetched it, so the version that is filed is the one some fetch saw.
 */
module ArchiveVersions {
  import opened Wrappers
  import opened Archive
  import opened ArchiveRuns
  import L = Leases

  ghost predicate InFiles(files: seq<seq<Line>>, line: Line) {
    exists f :: f in files && line in f
  }

  // ---- where every line comes from ----

  /** Step `step` reads the row that `line` is a copy of. */
  predicate Fetches(s: Sys, step: Step, line: Line) {
    && step.By? && step.move.FetchOne? && step.archiver in s.archivers
    && s.archivers[step.archiver].Fetching? && s.archivers[step.archiver].unread != []
    && var row := FetchRow(s.db.tables, s.db.marks, s.archivers[step.archiver].unread[0]);
       row.Some? && LineOf(row.value) == line
  }

  ghost predicate FetchedBefore(states: seq<Sys>, steps: seq<Step>, k: nat, line: Line)
    requires k <= |steps| <= |states|
  {
    exists f :: 0 <= f < k && Fetches(states[f], steps[f], line)
  }

  ghost predicate Holds(p: Phase, r: Fetched) {
    match p
    case Fetching(_, _, rows) => r in rows
    case Writing(groups, _, rows) => r in rows || exists g :: g in groups && r in g
    case Deleting(todo, rows) => r in rows || r in todo
    case _ => false
  }

  /** A new line in the files is a copy of a row its writer held. */
  lemma NewLineWasHeld(db: Store, p: Phase, move: Move, line: Line) returns (r: Fetched)
    requires CanMove(db, p, move) && InFiles(Effect(db, p, move).files, line) && !InFiles(db.files, line)
    ensures Holds(p, r) && LineOf(r) == line
  {
    var f :| f in Effect(db, p, move).files && line in f;
    var group := p.groups[0];
    assert f == Lines(group);
    var i :| 0 <= i < |f| && f[i] == line;
    r := group[i];
    assert group in p.groups && r in group;
  }

  /** All copies in files and in archivers' hands were fetched by an earlier step. */
  ghost predicate AllFetched(states: seq<Sys>, steps: seq<Step>, k: nat)
    requires k <= |steps| < |states|
  {
    && (forall line :: InFiles(states[k].db.files, line) ==> FetchedBefore(states, steps, k, line))
    && (forall a, r :: a in states[k].archivers && Holds(states[k].archivers[a], r) ==>
          FetchedBefore(states, steps, k, LineOf(r)))
  }

  lemma StepKeepsFetched(states: seq<Sys>, steps: seq<Step>, k: nat)
    requires Run(states, steps) && k < |steps| && AllFetched(states, steps, k)
    ensures AllFetched(states, steps, k + 1)
  {
    var s, step, t := states[k], steps[k], states[k + 1];
    forall a, r | a in t.archivers && Holds(t.archivers[a], r)
      ensures FetchedBefore(states, steps, k + 1, LineOf(r))
    {}
    forall line | InFiles(t.db.files, line) ensures FetchedBefore(states, steps, k + 1, line) {
      if !InFiles(s.db.files, line) {
        var r := NewLineWasHeld(s.db, s.archivers[step.archiver], step.move, line);
      }
    }
  }

  lemma {:induction false} EverythingWasFetched(states: seq<Sys>, steps: seq<Step>, k: nat)
    requires Run(states, steps) && k < |states|
    ensures AllFetched(states, steps, k)
  {
    if k > 0 {
      EverythingWasFetched(states, steps, k - 1);
      StepKeepsFetched(states, steps, k - 1);
    }
  }

  // ---- the last version ----

  predicate Changes(step: Step, key: RowKey) {
    step.Change? && step.key == key
  }

  ghost predicate NotChanged(steps: seq<Step>, key: RowKey, f: nat, k: nat)
    requires k <= |steps|
  {
    forall m :: f <= m < k ==> !Changes(steps[m], key)
  }

  /** The number of versions of a stored row grows with every change, and only then. */
  lemma {:induction false} VersionsGrow(states: seq<Sys>, steps: seq<Step>, key: RowKey, f: nat, k: nat)
    requires Run(states, steps) && f <= k < |states| && key in states[f].db.ever
    ensures key in states[k].db.ever && states[f].db.ever[key] <= states[k].db.ever[key]
    ensures |states[f].db.ever[key]| == |states[k].db.ever[key]| <==> NotChanged(steps, key, f, k)
    decreases k
  {
    if f < k {
      VersionsGrow(states, steps, key, f, k - 1);
      assert NotChanged(steps, key, f, k) <==> NotChanged(steps, key, f, k - 1) && !Changes(steps[k - 1], key);
    }
  }

  /** A fetch sees the latest version there is. */
  lemma FetchSeesTheLast(states: seq<Sys>, steps: seq<Step>, f: nat, line: Line)
    requires Run(states, steps) && f < |steps| && Fetches(states[f], steps[f], line)
    ensures var db := states[f].db;
            && line.key in db.tables && Visible(line.key, db.tables[line.key]) && line.key in db.ever
            && line.version == |db.ever[line.key]| && line.content == Last(db.ever[line.key])
  {
    RunKeeps(states, steps, f);
  }

  /** The files hold the last version of the row. */
  ghost predicate LastIsFiled(db: Store, key: RowKey)
    requires key in db.ever
  {
    exists line :: InFiles(db.files, line) && line.key == key && line.version == |db.ever[key]|
  }

  /** Step `f` fetched a copy that is in the files of state `k`, and the row has not changed since. */
  ghost predicate FetchedLast(states: seq<Sys>, steps: seq<Step>, key: RowKey, f: nat, k: nat)
    requires f < k <= |steps| < |states|
  {
    && NotChanged(steps, key, f, k)
    && exists line: Line :: line.key == key && Fetches(states[f], steps[f], line) && InFiles(states[k].db.files, line)
  }

  lemma FiledThenFetched(states: seq<Sys>, steps: seq<Step>, k: nat, key: RowKey) returns (f: nat)
    requires Run(states, steps) && k < |states| && key in states[k].db.ever && LastIsFiled(states[k].db, key)
    ensures f < k && FetchedLast(states, steps, key, f, k)
  {
    var line :| InFiles(states[k].db.files, line) && line.key == key && line.version == |states[k].db.ever[key]|;
    EverythingWasFetched(states, steps, k);
    f :| 0 <= f < k && Fetches(states[f], steps[f], line);
    FetchSeesTheLast(states, steps, f, line);
    VersionsGrow(states, steps, key, f, k);
  }

  lemma FetchedThenFiled(states: seq<Sys>, steps: seq<Step>, k: nat, key: RowKey, f: nat)
    requires Run(states, steps) && f < k < |states| && key in states[k].db.ever
    requires FetchedLast(states, steps, key, f, k)
    ensures LastIsFiled(states[k].db, key)
  {
    var line: Line :| line.key == key && Fetches(states[f], steps[f], line) && InFiles(states[k].db.files, line);
    FetchSeesTheLast(states, steps, f, line);
    VersionsGrow(states, steps, key, f, k);
  }

  /**
   In every reachable state, right after a delete as at any other time, the files hold the last
   version of a row if and only if some copy in them was fetched after the row's last change.
   */
  lemma LastIsFiledIffFetchedLast(states: seq<Sys>, steps: seq<Step>, k: nat, key: RowKey)
    requires Run(states, steps) && k < |states| && key in states[k].db.ever
    ensures LastIsFiled(states[k].db, key) <==> exists f :: 0 <= f < k && FetchedLast(states, steps, key, f, k)
  {
    if LastIsFiled(states[k].db, key) {
      var f := FiledThenFetched(states, steps, k, key);
    }
    if f :| 0 <= f < k && FetchedLast(states, steps, key, f, k) {
      FetchedThenFiled(states, steps, k, key, f);
    }
  }

  /** A change of a row that archivers can see leaves its content alone. */
  ghost predicate Quiet(db: Store, step: Step, key: RowKey) {
    step.Change? && step.key == key && key in db.tables && Visible(key, db.tables[key])
    ==> step.row.content == db.tables[key].content
  }

  ghost predicate AllQuiet(states: seq<Sys>, steps: seq<Step>, key: RowKey)
    requires |states| == |steps| + 1
  {
    forall k :: 0 <= k < |steps| ==> Quiet(states[k].db, steps[k], key)
  }

  lemma {:induction false} QuietStepKeepsLast(s: Sys, step: Step, key: RowKey)
    requires Inv(s) && Enabled(s, step) && Quiet(s.db, step, key) && key in s.db.ever && Lingers(s.db, key)
    ensures var db := Next(s, step).db; key in db.ever && Lingers(db, key) && Last(db.ever[key]) == Last(s.db.ever[key])
  {
    StepIsLater(s, step);
  }

  lemma {:induction false} QuietKeepsLast(states: seq<Sys>, steps: seq<Step>, key: RowKey, f: nat, k: nat)
    requires Run(states, steps) && AllQuiet(states, steps, key) && f <= k < |states|
    requires key in states[f].db.ever && Lingers(states[f].db, key)
    ensures key in states[k].db.ever && Lingers(states[k].db, key)
    ensures Last(states[k].db.ever[key]) == Last(states[f].db.ever[key])
    decreases k
  {
    if f < k {
      QuietKeepsLast(states, steps, key, f, k - 1);
      RunKeeps(states, steps, k - 1);
      QuietStepKeepsLast(states[k - 1], steps[k - 1], key);
    }
  }

  /** So a row that is not changed while archivers can see it is always filed with its last content. */
  lemma LastVersionIsFiled(states: seq<Sys>, steps: seq<Step>, k: nat, key: RowKey)
    requires Run(states, steps) && AllQuiet(states, steps, key) && k < |states|
    ensures var db := states[k].db;
            && (key in db.ever && key !in db.tables ==> Filed(db.files, key))
            && forall f <- db.files, line <- f ::
                 line.key == key ==> key in db.ever && line.content == Last(db.ever[key])
  {
    RunKeeps(states, steps, k);
    EverythingWasFetched(states, steps, k);
    forall file, line | file in states[k].db.files && line in file && line.key == key
      ensures key in states[k].db.ever && line.content == Last(states[k].db.ever[key])
    {
      assert InFiles(states[k].db.files, line);
      var f :| 0 <= f < k && Fetches(states[f], steps[f], line);
      FetchSeesTheLast(states, steps, f, line);
      QuietKeepsLast(states, steps, key, f, k);
    }
  }

  // ---- a row that does change ----

  const KEY := RowKey(WorkflowRuns, 7)
  const OLD := Row("old", 0, true, 1)
  const NEW := Row("new", 0, true, 2)
  const COPY := Fetched(0, KEY, "old", 0, 1)
  const HELD := map[0 := Mark(KEY, 0, 0, false, L.Lease(Some("a"), Some(60)), 1)]

  /** A row is stored and marked. */
  lemma RowIsMarked(archivers: map<nat, Phase>) returns (states: seq<Sys>, steps: seq<Step>)
    requires 1 in archivers && forall a <- archivers :: archivers[a].Idle?
    ensures Run(states, steps)
    ensures states[|steps|] == Sys(Store(map[KEY := OLD], map[0 := Mark(KEY, 0, 0, false, L.FREE, 0)], 1, [],
                                         map[KEY := ["old"]]), archivers)
  {
    states, steps := [Sys(NO_ROWS, archivers)], [];
    states, steps := Extend(states, steps, Insert(KEY, OLD));
    assert states[|steps|].db.ever[KEY] == ["old"];
    assert states[|steps|].db == Store(map[KEY := OLD], map[], 0, [], map[KEY := ["old"]]);
    states, steps := Extend(states, steps, By(1, Select([Candidate(KEY, 0, 0)])));
    states, steps := Extend(states, steps, By(1, MarkOne));
    states, steps := Extend(states, steps, By(1, Finish));
    assert archivers[1 := Idle] == archivers;
  }

  /** An archiver has read a copy of the row. */
  lemma CopyIsRead() returns (states: seq<Sys>, steps: seq<Step>)
    ensures Run(states, steps)
    ensures states[|steps|] == Sys(Store(map[KEY := OLD], HELD, 1, [], map[KEY := ["old"]]),
                                   map[1 := Writing([[COPY]], [0], [COPY])])
  {
    states, steps := RowIsMarked(map[1 := Idle]);
    states, steps := Extend(states, steps, By(1, Claim("a", 0, 60, [0], true)));
    assert states[|steps|].db.marks == HELD;
    states, steps := Extend(states, steps, By(1, FetchOne));
    assert states[|steps|].archivers[1] == Fetching([], [0], [COPY]);
    states, steps := Extend(states, steps, By(1, FetchDone(false, [[COPY]])));
  }

  /**
   The condition can fail: an update that lands between the fetch and the delete is in no archive file
   and no longer in the table.
   */
  lemma StaleCopyIsFiled() returns (states: seq<Sys>, steps: seq<Step>)
    ensures Run(states, steps)
    ensures var db := states[|steps|].db;
            && KEY !in db.tables && db.files == [[Line(KEY, "old", 1)]] && db.ever == map[KEY := ["old", "new"]]
            && !LastIsFiled(db, KEY)
  {
    states, steps := CopyIsRead();
    states, steps := Extend(states, steps, Change(KEY, NEW));
    assert states[|steps|].db.ever[KEY] == ["old", "new"];
    assert states[|steps|].db == Store(map[KEY := NEW], HELD, 1, [], map[KEY := ["old", "new"]]);
    assert Lines([COPY]) == [Line(KEY, "old", 1)];
    states, steps := Extend(states, steps, By(1, WriteOne));
    assert states[|steps|].db.files == [[Line(KEY, "old", 1)]];
    states, steps := Extend(states, steps, By(1, WriteDone));
    states, steps := Extend(states, steps, By(1, DeleteOne));
  }
}
