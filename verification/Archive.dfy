/**
 Archival by any number of archivers, one SQL statement or file rename at a time
 (runinator-archiver/src/main.rs, runinator-database/src/operations.rs). An archiver may lose its
 lease, fail or crash between any two steps while others run, and rows come and change meanwhile.
 */
module Archive {
  import opened Wrappers
  import opened Leases

  datatype ArchiveTable =
    | WorkflowRuns | WorkflowNodeChunks | WorkflowReadyNodes | RunChunks | WorkflowActionDispatches
    | Notifications | DeadLetters | AuditLog | IdempotencyKeys

  datatype RowKey = RowKey(table: ArchiveTable, pk: nat)

  /**
   `closed` stands for a set completed_at, published_at or read_at, none of which is ever reset.
   `version` counts the writes of the row; it is bookkeeping that no statement reads.
   */
  datatype Row = Row(content: string, createdAt: int, closed: bool, version: nat)

  /** `archive_source_sql`: three tables give up only closed rows. */
  predicate Visible(key: RowKey, row: Row) {
    (key.table.WorkflowReadyNodes? || key.table.WorkflowActionDispatches? || key.table.Notifications?)
    ==> row.closed
  }

  /** `day` is the archive_day column: the day of the cutoff that made the row eligible. */
  datatype Mark = Mark(key: RowKey, createdAt: int, day: int, archived: bool, lease: Lease, attempts: nat)

  /** A row read for archiving (`ArchiveRow`), and the line written for it. */
  datatype Fetched = Fetched(mark: nat, key: RowKey, content: string, createdAt: int, version: nat)
  datatype Line = Line(key: RowKey, content: string, version: nat)

  /** A row the candidate query returned. */
  datatype Candidate = Candidate(key: RowKey, createdAt: int, day: int)

  /** What every archiver shares. */
  datatype Store = Store(
    tables: map<RowKey, Row>,
    marks: map<nat, Mark>,
    nextMark: nat,
    files: seq<seq<Line>>,              // renamed archive files; temporary files do not count
    ever: map<RowKey, seq<string>>)     // every version of every row ever stored, in order

  /** What one archiver holds in memory between two statements; a crash forgets it. */
  datatype Phase =
    | Idle
    | Marking(candidates: seq<Candidate>)
    | Reading(who: Owner, until: int)   // MySQL: the claim's update is done, its read-back is to come
    | Fetching(unread: seq<nat>, claimed: seq<nat>, rows: seq<Fetched>)
    | Writing(groups: seq<seq<Fetched>>, claimed: seq<nat>, rows: seq<Fetched>)
    | Deleting(todo: seq<Fetched>, rows: seq<Fetched>)
    | Completing(ids: seq<nat>)
    | Failing(ids: seq<nat>)

  datatype Sys = Sys(db: Store, archivers: map<nat, Phase>)

  // ---- single statements ----

  predicate Marked(marks: map<nat, Mark>, key: RowKey) {
    exists id <- marks :: marks[id].key == key
  }

  /** `INSERT OR IGNORE INTO archive_marks` against the unique key (table_name, primary_key). */
  function InsertMark(marks: map<nat, Mark>, id: nat, c: Candidate): map<nat, Mark> {
    if Marked(marks, c.key) then marks else marks[id := Mark(c.key, c.createdAt, c.day, false, FREE, 0)]
  }

  predicate OpenFor(m: Mark, who: Owner, now: int) {
    !m.archived && Claimable(m.lease, who, now)
  }

  function ClaimMarks(marks: map<nat, Mark>, picked: seq<nat>, who: Owner, until: int): map<nat, Mark> {
    map id | id in marks ::
      if id in picked then marks[id].(lease := Lease(Some(who), Some(until)), attempts := marks[id].attempts + 1)
      else marks[id]
  }

  /** `SELECT ... WHERE claimed_by = ? AND claimed_until = ?`, whatever the status. */
  function MarksReadBack(marks: map<nat, Mark>, who: Owner, until: int): set<nat> {
    set id | id in marks && marks[id].lease == Lease(Some(who), Some(until))
  }

  /** The rows of a set, each once. */
  ghost predicate Lists(answer: seq<nat>, rows: set<nat>) {
    && (forall i, j :: 0 <= i < j < |answer| ==> answer[i] != answer[j])
    && (forall id :: id in answer <==> id in rows)
  }

  /** `complete_archive_marks`, one mark: whoever holds it. */
  function CompleteMark(marks: map<nat, Mark>, id: nat): map<nat, Mark> {
    if id in marks then marks[id := marks[id].(archived := true, lease := FREE)] else marks
  }

  /** `fail_archive_marks`, one mark: whoever holds it, unless it is archived. */
  function FailMark(marks: map<nat, Mark>, id: nat): map<nat, Mark> {
    if id in marks && !marks[id].archived then marks[id := marks[id].(lease := FREE)] else marks
  }

  /** `fetch_archive_row`; no row, or none visible, is `None`. */
  function FetchRow(tables: map<RowKey, Row>, marks: map<nat, Mark>, id: nat): Option<Fetched> {
    if id in marks && marks[id].key in tables && Visible(marks[id].key, tables[marks[id].key])
    then
      var row := tables[marks[id].key];
      Some(Fetched(id, marks[id].key, row.content, marks[id].createdAt, row.version))
    else None
  }

  function LineOf(r: Fetched): Line {
    Line(r.key, r.content, r.version)
  }

  function Lines(rows: seq<Fetched>): seq<Line> {
    seq(|rows|, i requires 0 <= i < |rows| => LineOf(rows[i]))
  }

  function MarkIds(rows: seq<Fetched>): seq<nat> {
    seq(|rows|, i requires 0 <= i < |rows| => rows[i].mark)
  }

  // ---- steps ----

  datatype Move =
    | Select(candidates: seq<Candidate>)
    | MarkOne
    | Claim(who: Owner, now: int, until: int, picked: seq<nat>, returning: bool)
    | ReadBack(answer: seq<nat>)
    | FetchOne
    | FetchDone(dryRun: bool, groups: seq<seq<Fetched>>)
    | WriteOne
    | WriteDone
    | DeleteOne
    | DeleteDone
    | CompleteOne
    | FailOne
    | GiveUp      // a fetch or write error: on to fail_archive_marks
    | Finish
    | Crash

  datatype Step = Insert(key: RowKey, row: Row) | Change(key: RowKey, row: Row) | By(archiver: nat, move: Move)

  ghost predicate Covers(groups: seq<seq<Fetched>>, rows: seq<Fetched>) {
    && (forall r <- rows :: exists g :: g in groups && r in g)
    && (forall g <- groups, r <- g :: r in rows)
  }

  /** Retention cutoffs and batch limits only narrow the candidates and the picked marks. */
  ghost predicate CanMove(db: Store, p: Phase, move: Move) {
    match move
    case Select(candidates) =>
      p.Idle? && forall c <- candidates :: c.key in db.tables && Visible(c.key, db.tables[c.key])
    case MarkOne => p.Marking? && p.candidates != []
    case Claim(who, now, _, picked, _) =>
      p.Idle? && forall id <- picked :: id in db.marks && OpenFor(db.marks[id], who, now)
    case ReadBack(answer) => p.Reading? && Lists(answer, MarksReadBack(db.marks, p.who, p.until))
    case FetchOne => p.Fetching? && p.unread != []
    case FetchDone(_, groups) => p.Fetching? && p.unread == [] && Covers(groups, p.rows)
    case WriteOne => p.Writing? && p.groups != []
    case WriteDone => p.Writing? && p.groups == []
    case DeleteOne => p.Deleting? && p.todo != []
    case DeleteDone => p.Deleting? && p.todo == []
    case CompleteOne => p.Completing? && p.ids != []
    case FailOne => p.Failing? && p.ids != []
    case GiveUp => p.Fetching? || p.Writing?
    case Finish => p == Marking([]) || p == Completing([]) || p == Failing([])
    case Crash => true
  }

  /** What a move does to the shared store. */
  function Effect(db: Store, p: Phase, move: Move): Store
    requires CanMove(db, p, move)
  {
    match move
    case MarkOne => db.(marks := InsertMark(db.marks, db.nextMark, p.candidates[0]), nextMark := db.nextMark + 1)
    case Claim(who, _, until, picked, _) => db.(marks := ClaimMarks(db.marks, picked, who, until))
    case WriteOne => db.(files := db.files + [Lines(p.groups[0])])
    case DeleteOne => db.(tables := db.tables - {p.todo[0].key})
    case CompleteOne => db.(marks := CompleteMark(db.marks, p.ids[0]))
    case FailOne => db.(marks := FailMark(db.marks, p.ids[0]))
    case _ => db
  }

  /** What a claim comes back with; nothing ends the pass. */
  function Holding(answer: seq<nat>): Phase {
    if answer == [] then Idle else Fetching(answer, answer, [])
  }

  /** The archiver's own next phase. */
  function After(db: Store, p: Phase, move: Move): Phase
    requires CanMove(db, p, move)
  {
    match move
    case Select(candidates) => Marking(candidates)
    case MarkOne => Marking(p.candidates[1..])
    case Claim(who, _, until, picked, returning) => if returning then Holding(picked) else Reading(who, until)
    case ReadBack(answer) => Holding(answer)
    case FetchOne =>
      var row := FetchRow(db.tables, db.marks, p.unread[0]);
      p.(unread := p.unread[1..], rows := p.rows + if row.Some? then [row.value] else [])
    case FetchDone(dryRun, groups) =>
      if p.rows == [] then Completing(p.claimed)
      else if dryRun then Failing(p.claimed)
      else Writing(groups, p.claimed, p.rows)
    case WriteOne => p.(groups := p.groups[1..])
    case WriteDone => Deleting(p.rows, p.rows)
    case DeleteOne => p.(todo := p.todo[1..])
    case DeleteDone => Completing(MarkIds(p.rows))
    case CompleteOne => Completing(p.ids[1..])
    case FailOne => Failing(p.ids[1..])
    case GiveUp => Failing(p.claimed)
    case Finish => Idle
    case Crash => Idle
  }

  ghost predicate Enabled(s: Sys, step: Step) {
    match step
    case Insert(key, row) => key !in s.db.ever && row.version == 1
    case Change(key, row) =>
      && key in s.db.tables && (s.db.tables[key].closed ==> row.closed)
      && row.version == s.db.tables[key].version + 1
    case By(a, move) => a in s.archivers && CanMove(s.db, s.archivers[a], move)
  }

  function Stored(db: Store, key: RowKey, row: Row): Store {
    db.(tables := db.tables[key := row],
        ever := db.ever[key := (if key in db.ever then db.ever[key] else []) + [row.content]])
  }

  function Next(s: Sys, step: Step): Sys
    requires Enabled(s, step)
  {
    match step
    case Insert(key, row) => s.(db := Stored(s.db, key, row))
    case Change(key, row) => s.(db := Stored(s.db, key, row))
    case By(a, move) =>
      Sys(Effect(s.db, s.archivers[a], move), s.archivers[a := After(s.db, s.archivers[a], move)])
  }

  const NO_ROWS := Store(map[], map[], 0, [], map[])

  ghost predicate Run(states: seq<Sys>, steps: seq<Step>) {
    && |states| == |steps| + 1 && states[0].db == NO_ROWS
    && (forall a <- states[0].archivers :: states[0].archivers[a].Idle?)
    && forall k :: 0 <= k < |steps| ==> Enabled(states[k], steps[k]) && states[k + 1] == Next(states[k], steps[k])
  }
}
