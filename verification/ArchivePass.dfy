/**
 One archiver pass as a function of what it finds (runinator-archiver/src/main.rs): which marks it
 sets, which rows it fetches, into which files they go and what it leaves open.
 */
module ArchivePass {
  import opened Wrappers
  import opened Archive
  import opened ArchiveRuns
  import opened Selection
  import opened Render
  import L = Leases

  // ---- what the loops compute ----

  /** The first `n` inserts; every one draws an id, ignored or not. */
  function InsertAll(marks: map<nat, Mark>, next: nat, cs: seq<Candidate>, n: nat): map<nat, Mark>
    requires n <= |cs|
  {
    if n == 0 then marks else InsertMark(InsertAll(marks, next, cs, n - 1), next + n - 1, cs[n - 1])
  }

  /** The inserts leave every mark that was there as it was. */
  lemma {:induction false} InsertAllKeeps(marks: map<nat, Mark>, next: nat, cs: seq<Candidate>, n: nat)
    requires n <= |cs| && forall id <- marks :: id < next
    ensures forall id <- marks :: id in InsertAll(marks, next, cs, n) && InsertAll(marks, next, cs, n)[id] == marks[id]
    ensures forall id <- InsertAll(marks, next, cs, n) :: id < next + n
  {
    if n > 0 { InsertAllKeeps(marks, next, cs, n - 1); }
  }

  /** Every candidate's row is marked afterwards. */
  lemma {:induction false} InsertAllCovers(marks: map<nat, Mark>, next: nat, cs: seq<Candidate>, n: nat, i: nat)
    requires i < n <= |cs| && forall id <- marks :: id < next
    ensures Marked(InsertAll(marks, next, cs, n), cs[i].key)
  {
    InsertAllKeeps(marks, next, cs, n - 1);
    var before, c := InsertAll(marks, next, cs, n - 1), cs[n - 1];
    var after := InsertMark(before, next + n - 1, c);
    if i < n - 1 {
      InsertAllCovers(marks, next, cs, n - 1, i);
      var x :| x in before && before[x].key == cs[i].key;
      assert x in after && after[x].key == cs[i].key;
    } else if !Marked(before, c.key) {
      assert after[next + n - 1].key == c.key;
    }
  }

  /** A new mark is open, unclaimed and one of the candidates. */
  lemma {:induction false} NewMarksAreCandidates(marks: map<nat, Mark>, next: nat, cs: seq<Candidate>, n: nat, id: nat)
    requires n <= |cs| && (forall x <- marks :: x < next) && id in InsertAll(marks, next, cs, n) && id !in marks
    ensures next <= id < next + n
    ensures InsertAll(marks, next, cs, n)[id] ==
            Mark(cs[id - next].key, cs[id - next].createdAt, cs[id - next].day, false, L.Lease(None, None), 0)
  {
    InsertAllKeeps(marks, next, cs, n - 1);
    if id in InsertAll(marks, next, cs, n - 1) { NewMarksAreCandidates(marks, next, cs, n - 1, id); }
  }

  /** The candidates of those of the first `n` tables whose retention is configured, in policy order. */
  function WantedOf(answers: seq<Option<seq<Candidate>>>, n: nat): seq<Candidate>
    requires n <= |answers|
  {
    if n == 0 then []
    else WantedOf(answers, n - 1) + Candidates(answers[n - 1])
  }

  function Wanted(answers: seq<Option<seq<Candidate>>>): seq<Candidate> {
    WantedOf(answers, |answers|)
  }

  /** The marks once every candidate has been inserted. */
  function AllMarked(marks: map<nat, Mark>, next: nat, answers: seq<Option<seq<Candidate>>>): map<nat, Mark> {
    InsertAll(marks, next, Wanted(answers), |Wanted(answers)|)
  }

  function FetchAll(tables: map<RowKey, Row>, marks: map<nat, Mark>, ids: seq<nat>): seq<Fetched> {
    if ids == [] then []
    else
      var row := FetchRow(tables, marks, ids[|ids| - 1]);
      FetchAll(tables, marks, ids[..|ids| - 1]) + if row.Some? then [row.value] else []
  }

  function CompleteAll(marks: map<nat, Mark>, ids: seq<nat>): map<nat, Mark> {
    map id | id in marks :: if id in ids then marks[id].(archived := true, lease := L.FREE) else marks[id]
  }

  function FailAll(marks: map<nat, Mark>, ids: seq<nat>): map<nat, Mark> {
    map id | id in marks :: if id in ids && !marks[id].archived then marks[id].(lease := L.FREE) else marks[id]
  }

  lemma CompleteAllGrows(marks: map<nat, Mark>, ids: seq<nat>, i: nat)
    requires i < |ids|
    ensures CompleteAll(marks, ids[..i + 1]) == CompleteMark(CompleteAll(marks, ids[..i]), ids[i])
  {
    assert ids[..i + 1] == ids[..i] + [ids[i]];
  }

  lemma FailAllGrows(marks: map<nat, Mark>, ids: seq<nat>, i: nat)
    requires i < |ids|
    ensures FailAll(marks, ids[..i + 1]) == FailMark(FailAll(marks, ids[..i]), ids[i])
  {
    assert ids[..i + 1] == ids[..i] + [ids[i]];
  }

  function RowKeys(rows: seq<Fetched>): set<RowKey> {
    set r | r in rows :: r.key
  }

  lemma RowKeysGrow(tables: map<RowKey, Row>, rows: seq<Fetched>, i: nat)
    requires i < |rows|
    ensures tables - RowKeys(rows[..i + 1]) == tables - RowKeys(rows[..i]) - {rows[i].key}
  {
    assert rows[..i + 1] == rows[..i] + [rows[i]];
  }

  const SECONDS_PER_DAY := 86400

  type GroupKey = (int, ArchiveTable)

  /** One file per creation day and table. */
  function GroupOf(r: Fetched): GroupKey {
    (r.createdAt / SECONDS_PER_DAY, r.key.table)
  }

  function Group(rows: seq<Fetched>, g: GroupKey): seq<Fetched> {
    if rows == [] then []
    else
      var last := rows[|rows| - 1];
      Group(rows[..|rows| - 1], g) + if GroupOf(last) == g then [last] else []
  }

  function GroupsIn(rows: seq<Fetched>): set<GroupKey> {
    set r | r in rows :: GroupOf(r)
  }

  function GroupsFor(rows: seq<Fetched>, keys: seq<GroupKey>): seq<seq<Fetched>> {
    seq(|keys|, i requires 0 <= i < |keys| => Group(rows, keys[i]))
  }

  function FilesFor(groups: seq<seq<Fetched>>): seq<seq<Line>> {
    seq(|groups|, i requires 0 <= i < |groups| => Lines(groups[i]))
  }

  ghost predicate EachOnce(keys: seq<GroupKey>, all: set<GroupKey>) {
    && (forall i, j :: 0 <= i < j < |keys| ==> keys[i] != keys[j])
    && (forall g :: g in keys <==> g in all)
  }

  lemma {:induction false} GroupMembers(rows: seq<Fetched>, g: GroupKey, r: Fetched)
    ensures multiset(Group(rows, g))[r] == if GroupOf(r) == g then multiset(rows)[r] else 0
    ensures r in Group(rows, g) <==> r in rows && g == (r.createdAt / 86_400, r.key.table)
  {
    if rows != [] {
      GroupMembers(rows[..|rows| - 1], g, r);
      assert rows == rows[..|rows| - 1] + [rows[|rows| - 1]];
    }
    assert r in multiset(rows) <==> r in rows;
    assert r in multiset(Group(rows, g)) <==> r in Group(rows, g);
  }

  lemma GroupsCover(rows: seq<Fetched>, keys: seq<GroupKey>)
    requires EachOnce(keys, GroupsIn(rows))
    ensures Covers(GroupsFor(rows, keys), rows)
  {
    forall g, r | g in GroupsFor(rows, keys) && r in g ensures r in rows {
      var i :| 0 <= i < |keys| && g == Group(rows, keys[i]);
      GroupMembers(rows, keys[i], r);
    }
    forall r | r in rows ensures exists g :: g in GroupsFor(rows, keys) && r in g {
      assert GroupOf(r) in keys;
      var i :| 0 <= i < |keys| && keys[i] == GroupOf(r);
      GroupMembers(rows, keys[i], r);
      assert GroupsFor(rows, keys)[i] == Group(rows, keys[i]);
    }
  }

  function Flat<T>(parts: seq<seq<T>>): seq<T> {
    if parts == [] then [] else Flat(parts[..|parts| - 1]) + parts[|parts| - 1]
  }

  lemma {:induction false} GroupsCount(rows: seq<Fetched>, keys: seq<GroupKey>, r: Fetched)
    requires forall i, j :: 0 <= i < j < |keys| ==> keys[i] != keys[j]
    ensures multiset(Flat(GroupsFor(rows, keys)))[r] == if GroupOf(r) in keys then multiset(rows)[r] else 0
    decreases |keys|
  {
    if keys != [] {
      var front, last := keys[..|keys| - 1], keys[|keys| - 1];
      GroupsCount(rows, front, r);
      GroupMembers(rows, last, r);
      assert GroupsFor(rows, keys)[..|keys| - 1] == GroupsFor(rows, front);
      assert keys == front + [last];
    }
  }

  /** The files of one pass hold every fetched row exactly as often as it was fetched. */
  lemma GroupsPartition(rows: seq<Fetched>, keys: seq<GroupKey>)
    requires EachOnce(keys, GroupsIn(rows))
    ensures multiset(Flat(GroupsFor(rows, keys))) == multiset(rows)
  {
    var flat := multiset(Flat(GroupsFor(rows, keys)));
    forall r ensures flat[r] == multiset(rows)[r] {
      GroupsCount(rows, keys, r);
      assert r in multiset(rows) ==> r in rows;
    }
  }

  /** A loop of `n` statements meets the fault. */
  predicate Hits(fault: Option<nat>, n: nat) {
    fault.Some? && fault.value < n
  }

  /** How many of `n` statements went through before the fault. */
  function Through(fault: Option<nat>, n: nat): (k: nat)
    ensures k <= n && (k < n <==> Hits(fault, n))
  {
    if Hits(fault, n) then fault.value else n
  }

  /** As much of the list as was dealt with before the fault. */
  function PartDone<T>(items: seq<T>, fault: Option<nat>): seq<T> {
    items[..Through(fault, |items|)]
  }

  lemma {:induction false} WantedGrows(answers: seq<Option<seq<Candidate>>>, n: nat, m: nat)
    requires n <= m <= |answers|
    ensures WantedOf(answers, n) <= WantedOf(answers, m)
  {
    if n < m { WantedGrows(answers, n, m - 1); }
  }

  /** `part` is where the list goes on after its first `done` items. */
  ghost predicate ComesNext<T>(all: seq<T>, done: nat, part: seq<T>) {
    done + |part| <= |all| && forall i {:trigger part[i]} :: 0 <= i < |part| ==> part[i] == all[done + i]
  }

  lemma LastComesNext<T>(before: seq<T>, part: seq<T>)
    ensures ComesNext(before + part, |before|, part)
  {
  }

  lemma StillComesNext<T>(shorter: seq<T>, all: seq<T>, done: nat, part: seq<T>)
    requires shorter <= all && ComesNext(shorter, done, part)
    ensures ComesNext(all, done, part)
    ensures forall x <- part :: x in all
  {
  }

  function Candidates(answer: Option<seq<Candidate>>): seq<Candidate> {
    if answer.Some? then answer.value else []
  }

  /** The candidates of table `i` begin at `offsets[i]` in the list of all. */
  ghost predicate Fits(answers: seq<Option<seq<Candidate>>>, all: seq<Candidate>, offsets: seq<nat>, i: nat)
    requires i < |answers| && |offsets| == |answers| + 1
  {
    && offsets[i + 1] == offsets[i] + |Candidates(answers[i])|
    && ComesNext(all, offsets[i], Candidates(answers[i]))
    && forall c <- Candidates(answers[i]) :: c in all
  }

  /** The list is that of the tables' candidates, one table after the other. */
  ghost predicate LinesUp(answers: seq<Option<seq<Candidate>>>, all: seq<Candidate>, offsets: seq<nat>) {
    && |offsets| == |answers| + 1 && offsets[0] == 0 && offsets[|answers|] == |all|
    && forall i :: 0 <= i < |answers| ==> Fits(answers, all, offsets, i)
  }

  lemma WantedLinesUp(answers: seq<Option<seq<Candidate>>>) returns (offsets: seq<nat>)
    ensures LinesUp(answers, Wanted(answers), offsets)
  {
    offsets := seq(|answers| + 1, i requires 0 <= i <= |answers| => |WantedOf(answers, i)|);
    forall i | 0 <= i < |answers| ensures Fits(answers, Wanted(answers), offsets, i) {
      WantedGrows(answers, i + 1, |answers|);
      LastComesNext(WantedOf(answers, i), Candidates(answers[i]));
      StillComesNext(WantedOf(answers, i + 1), Wanted(answers), |WantedOf(answers, i)|, Candidates(answers[i]));
    }
  }

  // ---- which marks a claim picks ----

  /** The order of the table names. */
  function TableRank(table: ArchiveTable): nat {
    match table
    case AuditLog => 0
    case DeadLetters => 1
    case IdempotencyKeys => 2
    case Notifications => 3
    case RunChunks => 4
    case WorkflowActionDispatches => 5
    case WorkflowNodeChunks => 6
    case WorkflowReadyNodes => 7
    case WorkflowRuns => 8
  }

  /** `ArchiveTable::as_str`. */
  function TableName(table: ArchiveTable): string {
    match table
    case WorkflowRuns => "workflow_runs"
    case WorkflowNodeChunks => "workflow_node_chunks"
    case WorkflowReadyNodes => "workflow_ready_nodes"
    case RunChunks => "run_chunks"
    case WorkflowActionDispatches => "workflow_action_dispatches"
    case Notifications => "notifications"
    case DeadLetters => "dead_letters"
    case AuditLog => "audit_log"
    case IdempotencyKeys => "idempotency_keys"
  }

  /** The first difference decides. */
  ghost predicate Precedes(a: string, b: string) {
    exists i :: 0 <= i < |a| && i < |b| && a[..i] == b[..i] && a[i] < b[i]
  }

  /** How long the common start of two names is. */
  lemma DifferAt(a: string, b: string, i: nat)
    requires i < |a| && i < |b| && a[..i] == b[..i] && a[i] < b[i]
    ensures Precedes(a, b)
  {
  }

  lemma WorkflowNames()
    ensures Precedes("workflow_action_dispatches", "workflow_node_chunks")
    ensures Precedes("workflow_node_chunks", "workflow_ready_nodes")
  {
    var a, n, y := "workflow_action_dispatches", "workflow_node_chunks", "workflow_ready_nodes";
    assert a[..9] == "workflow_" && n[..9] == "workflow_" && y[..9] == "workflow_";
    DifferAt(a, n, 9);
    DifferAt(n, y, 9);
  }

  lemma RunsComeLast()
    ensures Precedes("workflow_ready_nodes", "workflow_runs")
  {
    var y, u := "workflow_ready_nodes", "workflow_runs";
    assert y[..10] == "workflow_r" && u[..10] == "workflow_r";
    DifferAt(y, u, 10);
  }

  /** The nine ranks list the names in ascending order. */
  lemma RanksFollowNames(s: ArchiveTable, t: ArchiveTable)
    ensures TableRank(t) < 9 && (TableRank(s) == TableRank(t) ==> s == t)
    ensures TableRank(t) == TableRank(s) + 1 ==> Precedes(TableName(s), TableName(t))
  {
    if TableRank(t) == TableRank(s) + 1 {
      if TableRank(s) < 5 {
        DifferAt(TableName(s), TableName(t), 0);
      } else {
        WorkflowNames();
        RunsComeLast();
      }
    }
  }

  /** `ORDER BY archive_day, table_name, primary_key`. */
  function MarkOrder(marks: map<nat, Mark>): Keys {
    map id | id in marks :: SortKey(marks[id].day, TableRank(marks[id].key.table), marks[id].key.pk)
  }

  function OpenPool(marks: map<nat, Mark>, who: L.Owner, now: int): set<nat> {
    set id | id in marks && OpenFor(marks[id], who, now)
  }

  function Chosen(picked: seq<nat>): (chosen: set<nat>)
    ensures forall id :: id in chosen <==> id in picked
  {
    set id | id in picked
  }

  /** An answer to the claim's subselect; `skipped` are the marks `SKIP LOCKED` passes over. */
  ghost predicate Picks(
      marks: map<nat, Mark>, who: L.Owner, now: int, limit: int, skipped: set<nat>, picked: seq<nat>)
  {
    && (forall i, j :: 0 <= i < j < |picked| ==> picked[i] != picked[j])
    && IsFirst(OpenPool(marks, who, now) - skipped, MarkOrder(marks), if limit < 1 then 1 else limit,
               Chosen(picked))
  }

  /** A picked mark is not archived, and its claim is unset, ended or the claimant's own. */
  lemma PickedAreOpen(marks: map<nat, Mark>, who: L.Owner, now: int, limit: int, skipped: set<nat>, picked: seq<nat>)
    requires Picks(marks, who, now, limit, skipped, picked)
    ensures forall id <- picked :: id in marks && OpenFor(marks[id], who, now)
    ensures forall id <- picked ::
              && id !in skipped && !marks[id].archived
              && (marks[id].lease.until.None? || marks[id].lease.until.value <= now
                  || marks[id].lease.owner == Some(who))
    ensures |picked| <= if limit < 1 then 1 else limit
  {
    forall id | id in picked ensures id in OpenPool(marks, who, now) && id !in skipped { assert id in Chosen(picked); }
    ChosenCounts(picked);
  }

  lemma {:induction false} ChosenCounts(picked: seq<nat>)
    requires forall i, j :: 0 <= i < j < |picked| ==> picked[i] != picked[j]
    ensures |Chosen(picked)| == |picked|
  {
    if picked != [] {
      var front, last := picked[..|picked| - 1], picked[|picked| - 1];
      ChosenCounts(front);
      assert picked == front + [last] && last !in front;
      assert Chosen(picked) == Chosen(front) + {last};
    }
  }

  /** Another such mark comes after each picked one by (day, table, key), and the batch is full. */
  lemma MarkLeftOut(
      marks: map<nat, Mark>, who: L.Owner, now: int, limit: int, skipped: set<nat>, picked: seq<nat>, id: nat)
    requires Picks(marks, who, now, limit, skipped, picked)
    requires id in marks && id !in skipped && id !in picked && !marks[id].archived
    requires marks[id].lease.until.None? || marks[id].lease.until.value <= now || marks[id].lease.owner == Some(who)
    ensures |picked| == if limit < 1 then 1 else limit
    ensures forall p <- picked ::
              && p in marks
              && var a, b := marks[p], marks[id];
                 || a.day < b.day
                 || (a.day == b.day && TableRank(a.key.table) < TableRank(b.key.table))
                 || (a.day == b.day && a.key.table == b.key.table && a.key.pk < b.key.pk)
  {
    var pool := OpenPool(marks, who, now) - skipped;
    ChosenCounts(picked);
    if |Chosen(picked)| == |pool| { SubsetOfSameSize(Chosen(picked), pool); }
    forall p | p in picked ensures p in marks && Before(MarkOrder(marks)[p], MarkOrder(marks)[id]) {
      assert p in Chosen(picked) && id in pool;
    }
    assert forall s: ArchiveTable, t: ArchiveTable :: TableRank(s) == TableRank(t) ==> s == t;
  }

  /** What a claim comes back with: the picked marks, or on MySQL all that carry the pair after its update. */
  ghost predicate Answers(
      dialect: SqlDialect, marks: map<nat, Mark>, picked: seq<nat>, who: L.Owner, until: int, answer: seq<nat>)
  {
    if dialect.MySql? then Lists(answer, MarksReadBack(ClaimMarks(marks, picked, who, until), who, until))
    else answer == picked
  }

  lemma MarksAreOrdered(marks: map<nat, Mark>, pool: set<nat>)
    requires pool <= marks.Keys
    requires forall a <- marks, b <- marks :: marks[a].key == marks[b].key ==> a == b
    ensures Ordered(pool, MarkOrder(marks))
  {
    forall a, b | a in pool && b in pool && a != b ensures MarkOrder(marks)[a] != MarkOrder(marks)[b] {
      assert marks[a].key != marks[b].key;
    }
  }

  /** In every reachable state the claim has one answer: the order columns tell any two marks apart. */
  lemma PickIsDetermined(
      states: seq<Sys>, steps: seq<Step>, k: nat, who: L.Owner, now: int, limit: int, skipped: set<nat>,
      one: seq<nat>, other: seq<nat>)
    requires Run(states, steps) && k < |states|
    requires Picks(states[k].db.marks, who, now, limit, skipped, one)
    requires Picks(states[k].db.marks, who, now, limit, skipped, other)
    ensures forall id :: id in one <==> id in other
  {
    OneMarkPerRow(states, steps, k);
    var marks := states[k].db.marks;
    var pool, n := OpenPool(marks, who, now) - skipped, if limit < 1 then 1 else limit;
    MarksAreOrdered(marks, pool);
    FirstIsUnique(pool, MarkOrder(marks), n, Chosen(one));
    FirstIsUnique(pool, MarkOrder(marks), n, Chosen(other));
    forall id ensures id in one <==> id in other {
      assert id in one <==> id in Chosen(one);
    }
  }

  // ---- what one pass does ----

  datatype Outcome =
    | MarkFailed | ClaimFailed | ReadBackFailed
    | NothingClaimed | FetchFailed | NothingLeft | DryRun | WriteFailed | DeleteFailed | CompleteFailed | Archived

  /**
   Which statements of the pass fail, if any: the n-th insert, read, file, delete, completion or failing of
   a mark; the claim's update; on MySQL its read-back.
   */
  datatype Faults = Faults(
    mark: Option<nat>, claim: bool, readBack: bool, fetch: Option<nat>, write: Option<nat>, delete: Option<nat>,
    complete: Option<nat>, fail: Option<nat>)

  /** The branches of `run_once` from the claim on, in their order; there is a file for each group. */
  function Decide(picked: seq<nat>, rows: seq<Fetched>, dryRun: bool, faults: Faults): Outcome {
    if picked == [] then NothingClaimed
    else if Hits(faults.fetch, |picked|) then FetchFailed
    else if rows == [] then if Hits(faults.complete, |picked|) then CompleteFailed else NothingLeft
    else if dryRun then DryRun
    else if Hits(faults.write, |GroupsIn(rows)|) then WriteFailed
    else if Hits(faults.delete, |rows|) then DeleteFailed
    else if Hits(faults.complete, |rows|) then CompleteFailed
    else Archived
  }

  /** When each branch is taken, said branch by branch. */
  ghost predicate BranchTaken(o: Outcome, rows: seq<Fetched>, picked: seq<nat>, dryRun: bool, faults: Faults) {
    var fetched := !Hits(faults.fetch, |picked|);
    && (o == FetchFailed <==> !fetched)
    && (o == NothingLeft <==> fetched && rows == [] && !Hits(faults.complete, |picked|))
    && (o == DryRun <==> fetched && rows != [] && dryRun)
    && (o == WriteFailed <==> fetched && rows != [] && !dryRun && Hits(faults.write, |GroupsIn(rows)|))
    && (o == DeleteFailed <==>
          && fetched && rows != [] && !dryRun
          && !Hits(faults.write, |GroupsIn(rows)|) && Hits(faults.delete, |rows|))
    && (o == Archived <==>
          && fetched && rows != [] && !dryRun
          && !Hits(faults.write, |GroupsIn(rows)|) && !Hits(faults.delete, |rows|) && !Hits(faults.complete, |rows|))
  }

  /** The marks a pass sets out to complete: all claimed ones if no row is left, else those of its rows. */
  function ToComplete(picked: seq<nat>, rows: seq<Fetched>): seq<nat> {
    if rows == [] then picked else MarkIds(rows)
  }

  function MarksAfter(o: Outcome, claimed: map<nat, Mark>, picked: seq<nat>, rows: seq<Fetched>, faults: Faults)
    : map<nat, Mark>
  {
    match o
    case NothingClaimed => claimed
    case DeleteFailed => claimed
    case NothingLeft => CompleteAll(claimed, picked)
    case Archived => CompleteAll(claimed, MarkIds(rows))
    case CompleteFailed => CompleteAll(claimed, PartDone(ToComplete(picked, rows), faults.complete))
    case _ => FailAll(claimed, PartDone(picked, faults.fail))
  }

  function TablesAfter(o: Outcome, tables: map<RowKey, Row>, rows: seq<Fetched>, faults: Faults): map<RowKey, Row> {
    match o
    case Archived => tables - RowKeys(rows)
    case CompleteFailed => tables - RowKeys(rows)
    case DeleteFailed => tables - RowKeys(PartDone(rows, faults.delete))
    case _ => tables
  }

  /** All the files, those before the failing one, or none. */
  ghost predicate Wrote(
      o: Outcome, rows: seq<Fetched>, keys: seq<GroupKey>, faults: Faults,
      before: seq<seq<Line>>, after: seq<seq<Line>>)
  {
    var groups := GroupsFor(rows, keys);
    if rows == [] || o.NothingClaimed? || o.FetchFailed? || o.DryRun? then after == before
    else if o.WriteFailed? then
      && EachOnce(keys, GroupsIn(rows)) && Hits(faults.write, |groups|)
      && after == before + FilesFor(groups[..faults.write.value])
    else EachOnce(keys, GroupsIn(rows)) && after == before + FilesFor(groups)
  }

  /**
   What each outcome leaves, said outcome by outcome: rows leave the tables only after every file is in
   place and never in a dry run, and the marks of a dry run or a failed fetch or write are free again.
   */
  lemma OutcomesInColumns(
      claimed: map<nat, Mark>, tables: map<RowKey, Row>, picked: seq<nat>, rows: seq<Fetched>, keys: seq<GroupKey>,
      dryRun: bool, faults: Faults, before: seq<seq<Line>>, after: seq<seq<Line>>)
    requires picked != [] && var o := Decide(picked, rows, dryRun, faults); Wrote(o, rows, keys, faults, before, after)
    ensures var o := Decide(picked, rows, dryRun, faults);
            var marks, left := MarksAfter(o, claimed, picked, rows, faults), TablesAfter(o, tables, rows, faults);
            && BranchTaken(o, rows, picked, dryRun, faults)
            && (o in {FetchFailed, NothingLeft, DryRun, WriteFailed} ==> left == tables)
            && (o in {FetchFailed, NothingLeft, DryRun} ==> after == before)
            && (o in {FetchFailed, DryRun, WriteFailed} ==>
                  forall id <- claimed :: id in marks && marks[id] ==
                    if id in picked[..Through(faults.fail, |picked|)] && !claimed[id].archived
                    then claimed[id].(lease := L.Lease(None, None)) else claimed[id])
            && (o == NothingLeft ==>
                  forall id <- claimed :: id in marks && marks[id] ==
                    if id in picked then claimed[id].(archived := true, lease := L.Lease(None, None)) else claimed[id])
            && (o == Archived ==>
                  && left == tables - (set r | r in rows :: r.key)
                  && after == before + FilesFor(GroupsFor(rows, keys))
                  && forall id <- claimed :: id in marks && marks[id] ==
                       if exists r <- rows :: r.mark == id
                       then claimed[id].(archived := true, lease := L.Lease(None, None)) else claimed[id])
            && (o == DeleteFailed ==>
                  && marks == claimed && left == tables - (set r | r in rows[..faults.delete.value] :: r.key)
                  && after == before + FilesFor(GroupsFor(rows, keys)))
  {
    MarkIdsAre(rows);
  }

  lemma MarkIdsAre(rows: seq<Fetched>)
    ensures forall id :: id in MarkIds(rows) <==> exists r <- rows :: r.mark == id
  {
    forall r | r in rows ensures r.mark in MarkIds(rows) {
      var i :| 0 <= i < |rows| && rows[i] == r;
      assert MarkIds(rows)[i] == r.mark;
    }
  }

  function OpenMarks(marks: map<nat, Mark>): set<nat> {
    set id | id in marks && !marks[id].archived
  }

  /**
   Exactly the rows behind the claimed marks that are there are fetched, of three tables the closed ones
   only, with the row's content and the mark's creation time.
   */
  lemma {:induction false} FetchedRows(tables: map<RowKey, Row>, marks: map<nat, Mark>, ids: seq<nat>, r: Fetched)
    ensures r in FetchAll(tables, marks, ids) <==> r.mark in ids && FetchRow(tables, marks, r.mark) == Some(r)
    ensures r in FetchAll(tables, marks, ids) <==>
            && r.mark in ids && r.mark in marks && marks[r.mark].key == r.key && r.key in tables
            && (r.key.table in {WorkflowReadyNodes, WorkflowActionDispatches, Notifications} ==> tables[r.key].closed)
            && r.content == tables[r.key].content && r.version == tables[r.key].version
            && r.createdAt == marks[r.mark].createdAt
    decreases |ids|
  {
    if ids != [] {
      FetchedRows(tables, marks, ids[..|ids| - 1], r);
      assert ids == ids[..|ids| - 1] + [ids[|ids| - 1]];
    }
  }

  /** They come in the order of the marks. */
  lemma {:induction false} FetchedInOrder(tables: map<RowKey, Row>, marks: map<nat, Mark>, a: seq<nat>, b: seq<nat>)
    ensures FetchAll(tables, marks, a + b) == FetchAll(tables, marks, a) + FetchAll(tables, marks, b)
    decreases |b|
  {
    if b == [] {
      assert a + b == a;
    } else {
      FetchedInOrder(tables, marks, a, b[..|b| - 1]);
      assert (a + b)[..|a + b| - 1] == a + b[..|b| - 1];
    }
  }

  /** A successful pass that holds a mark and is no dry run strictly reduces the open marks. */
  lemma PassShrinksOpenMarks(
      tables: map<RowKey, Row>, marks: map<nat, Mark>, picked: seq<nat>, answer: seq<nat>, who: L.Owner, until: int,
      faults: Faults)
    requires answer != [] && forall id <- answer :: id in OpenMarks(marks)
    ensures var claimed := ClaimMarks(marks, picked, who, until);
            var rows := FetchAll(tables, claimed, answer);
            var o := Decide(answer, rows, false, faults);
            o.NothingLeft? || o.Archived? ==> OpenMarks(MarksAfter(o, claimed, answer, rows, faults)) < OpenMarks(marks)
  {
    var claimed := ClaimMarks(marks, picked, who, until);
    var rows := FetchAll(tables, claimed, answer);
    var o := Decide(answer, rows, false, faults);
    var after := MarksAfter(o, claimed, answer, rows, faults);
    if o.Archived? {
      FetchedRows(tables, claimed, answer, rows[0]);
      assert MarkIds(rows)[0] == rows[0].mark;
      assert rows[0].mark in OpenMarks(marks) && rows[0].mark !in OpenMarks(after);
    } else if o.NothingLeft? {
      assert answer[0] in OpenMarks(marks) && answer[0] !in OpenMarks(after);
    }
  }

  ghost predicate HasLine(files: seq<seq<Line>>, line: Line) {
    exists f :: f in files && line in f
  }

  lemma EveryRowHasALine(rows: seq<Fetched>, keys: seq<GroupKey>, r: Fetched)
    requires EachOnce(keys, GroupsIn(rows)) && r in rows
    ensures HasLine(FilesFor(GroupsFor(rows, keys)), LineOf(r))
  {
    assert GroupOf(r) in keys;
    var i :| 0 <= i < |keys| && keys[i] == GroupOf(r);
    var group := Group(rows, keys[i]);
    GroupMembers(rows, keys[i], r);
    var j :| 0 <= j < |group| && group[j] == r;
    var files := FilesFor(GroupsFor(rows, keys));
    assert files[i] == Lines(group) && files[i][j] == LineOf(r);
    assert files[i] in files && files[i][j] in files[i];
  }

  /** A pass that deletes anything has filed every deleted row, with the content it had. */
  lemma DeletedRowsAreFiled(
      tables: map<RowKey, Row>, claimed: map<nat, Mark>, picked: seq<nat>, rows: seq<Fetched>, keys: seq<GroupKey>)
    requires rows == FetchAll(tables, claimed, picked) && EachOnce(keys, GroupsIn(rows))
    ensures forall key <- RowKeys(rows) ::
              && key in tables
              && HasLine(FilesFor(GroupsFor(rows, keys)), Line(key, tables[key].content, tables[key].version))
  {
    forall r | r in rows
      ensures r.key in tables
      ensures HasLine(FilesFor(GroupsFor(rows, keys)), Line(r.key, tables[r.key].content, tables[r.key].version))
    {
      FetchedRows(tables, claimed, picked, r);
      EveryRowHasALine(rows, keys, r);
    }
  }

  lemma {:induction false} EachOnceCounts(keys: seq<GroupKey>, all: set<GroupKey>)
    requires EachOnce(keys, all)
    ensures |keys| == |all|
    decreases |keys|
  {
    if keys == [] {
      assert all == {};
    } else {
      var front, last := keys[..|keys| - 1], keys[|keys| - 1];
      assert keys == front + [last];
      EachOnceCounts(front, all - {last});
      assert all == (all - {last}) + {last};
    }
  }
}
