/**
 One pass of the archiver as the sequence of effects it is (runinator-archiver/src/main.rs), with
 the archive statements of runinator-database/src/operations.rs as its loops. The ghost history
 proves every pass, failing or not, to be a run of module Archive's steps.
 Query answers, failures and the dry-run flag are parameters.
 */
module Archiver {
  import opened Wrappers
  import opened Archive
  import opened ArchiveRuns
  import opened ArchivePass
  import opened Render
  import L = Leases

  /** The rows of one pass, by creation day and table (a `BTreeMap` filled in row order). */
  method GroupRows(rows: seq<Fetched>) returns (groups: map<GroupKey, seq<Fetched>>)
    ensures groups.Keys == GroupsIn(rows)
    ensures forall g <- groups :: groups[g] == Group(rows, g)
  {
    groups := map[];
    for i := 0 to |rows|
      invariant groups.Keys == GroupsIn(rows[..i])
      invariant forall g <- groups :: groups[g] == Group(rows[..i], g)
      invariant forall g :: g !in groups ==> Group(rows[..i], g) == []
    {
      assert rows[..i + 1][..i] == rows[..i];
      assert rows[..i + 1] == rows[..i] + [rows[i]];
      var g := GroupOf(rows[i]);
      groups := groups[g := (if g in groups then groups[g] else []) + [rows[i]]];
    }
    assert rows[..|rows|] == rows;
  }

  /** The groups one after the other; which comes first matters to nobody. */
  method ListGroups(groups: map<GroupKey, seq<Fetched>>) returns (parts: seq<seq<Fetched>>, ghost keys: seq<GroupKey>)
    ensures EachOnce(keys, groups.Keys) && |parts| == |keys|
    ensures forall i :: 0 <= i < |keys| ==> parts[i] == groups[keys[i]]
  {
    parts, keys := [], [];
    var todo := groups.Keys;
    while todo != {}
      invariant todo <= groups.Keys && EachOnce(keys, groups.Keys - todo) && |parts| == |keys|
      invariant forall i :: 0 <= i < |keys| ==> keys[i] in groups && parts[i] == groups[keys[i]]
      decreases |todo|
    {
      var g :| g in todo;
      parts, keys := parts + [groups[g]], keys + [g];
      todo := todo - {g};
    }
  }

  // ---- the archiver's database ----

  class ArchiveStore {
    const dialect: SqlDialect
    var tables: map<RowKey, Row>
    var marks: map<nat, Mark>
    var nextMark: nat
    var files: seq<seq<Line>>
    ghost var history: Sys
    ghost var states: seq<Sys>
    ghost var steps: seq<Step>
    ghost const me: nat

    /** The store is where some run of the archivers has led. */
    ghost predicate Valid()
      reads this
    {
      && Run(states, steps) && history == states[|steps|] && me in history.archivers
      && history.db == Store(tables, marks, nextMark, files, history.db.ever)
    }

    ghost predicate In(p: Phase)
      reads this
    {
      Valid() && history.archivers[me] == p
    }

    /** One more step of that run, by this archiver. */
    ghost method Advance(move: Move)
      requires Run(states, steps) && history == states[|steps|]
      requires me in history.archivers && CanMove(history.db, history.archivers[me], move)
      modifies `history, `states, `steps
      ensures history == Next(old(history), By(me, move))
      ensures Run(states, steps) && history == states[|steps|]
    {
      states, steps := Extend(states, steps, By(me, move));
      history := states[|steps|];
    }

    /** One `INSERT OR IGNORE`. */
    method InsertIgnore(c: Candidate, ghost cs: seq<Candidate>, ghost i: nat)
      requires i < |cs| && cs[i] == c && In(Marking(cs[i..]))
      modifies `marks, `nextMark, `history, `states, `steps
      ensures In(Marking(cs[i + 1..]))
      ensures marks == InsertMark(old(marks), old(nextMark), c) && nextMark == old(nextMark) + 1
      ensures marks ==
              if exists id <- old(marks) :: old(marks)[id].key == c.key then old(marks)
              else old(marks)[old(nextMark) := Mark(c.key, c.createdAt, c.day, false, L.Lease(None, None), 0)]
    {
      Advance(MarkOne);
      assert cs[i..][1..] == cs[i + 1..];
      if !Marked(marks, c.key) {
        marks := marks[nextMark := Mark(c.key, c.createdAt, c.day, false, L.FREE, 0)];
      }
      nextMark := nextMark + 1;
    }

    /**
     `mark_archive_candidates`, given what the candidate query of one table returned: the next inserts
     of `all`, after `done` of them for other tables. An error ends the pass as a crash does.
     */
    method MarkCandidates(
        candidates: seq<Candidate>, failAt: Option<nat>, done: nat, ghost all: seq<Candidate>,
        ghost first: map<nat, Mark>, ghost next: nat)
      returns (ok: bool)
      requires In(Idle) && ComesNext(all, done, candidates) && !Hits(failAt, done)
      requires forall c <- candidates :: c.key in tables && Visible(c.key, tables[c.key])
      requires marks == InsertAll(first, next, all, done) && nextMark == next + done
      modifies `marks, `nextMark, `history, `states, `steps
      ensures In(Idle)
      ensures ok <==> !Hits(failAt, done + |candidates|)
      ensures var n := Through(failAt, done + |candidates|);
              marks == InsertAll(first, next, all, n) && nextMark == next + n
    {
      Advance(Select(candidates));
      ok := InsertEach(candidates, failAt, done, all, first, next);
      if ok {
        Advance(Finish);
      }
    }

    /** The insert number `done + i` of them all. */
    method InsertNext(
        candidates: seq<Candidate>, i: nat, ghost done: nat, ghost all: seq<Candidate>, ghost first: map<nat, Mark>,
        ghost next: nat)
      requires i < |candidates| && In(Marking(candidates[i..])) && ComesNext(all, done, candidates)
      requires marks == InsertAll(first, next, all, done + i) && nextMark == next + done + i
      modifies `marks, `nextMark, `history, `states, `steps
      ensures In(Marking(candidates[i + 1..]))
      ensures marks == InsertAll(first, next, all, done + i + 1) && nextMark == next + done + i + 1
    {
      InsertIgnore(candidates[i], candidates, i);
    }

    /** Its insert loop. */
    method InsertEach(
        candidates: seq<Candidate>, failAt: Option<nat>, done: nat, ghost all: seq<Candidate>,
        ghost first: map<nat, Mark>, ghost next: nat)
      returns (ok: bool)
      requires In(Marking(candidates)) && ComesNext(all, done, candidates) && !Hits(failAt, done)
      requires marks == InsertAll(first, next, all, done) && nextMark == next + done
      modifies `marks, `nextMark, `history, `states, `steps
      ensures ok <==> !Hits(failAt, done + |candidates|)
      ensures In(if ok then Marking([]) else Idle)
      ensures var n := Through(failAt, done + |candidates|);
              marks == InsertAll(first, next, all, n) && nextMark == next + n
    {
      var i := 0;
      while i < |candidates|
        invariant 0 <= i <= |candidates|
        invariant In(Marking(candidates[i..]))
        invariant marks == InsertAll(first, next, all, done + i) && nextMark == next + done + i
        invariant !Hits(failAt, done + i)
      {
        if failAt == Some(done + i) {
          Advance(Crash);
          return false;
        }
        InsertNext(candidates, i, done, all, first, next);
        i := i + 1;
      }
      ok := true;
    }

    /** One table of `mark_all`; a table without retention is skipped. */
    method MarkTable(
        answer: Option<seq<Candidate>>, failAt: Option<nat>, done: nat, ghost all: seq<Candidate>,
        ghost first: map<nat, Mark>, ghost next: nat)
      returns (ok: bool)
      requires In(Idle) && ComesNext(all, done, Candidates(answer)) && !Hits(failAt, done)
      requires forall c <- Candidates(answer) :: c.key in tables && Visible(c.key, tables[c.key])
      requires marks == InsertAll(first, next, all, done) && nextMark == next + done
      modifies `marks, `nextMark, `history, `states, `steps
      ensures In(Idle)
      ensures ok <==> !Hits(failAt, done + |Candidates(answer)|)
      ensures var n := Through(failAt, done + |Candidates(answer)|);
              marks == InsertAll(first, next, all, n) && nextMark == next + n
    {
      if answer.None? {
        return true;
      }
      ok := MarkCandidates(answer.value, failAt, done, all, first, next);
    }

    /** The table loop of `mark_all`. */
    method MarkTables(
        answers: seq<Option<seq<Candidate>>>, failAt: Option<nat>, ghost all: seq<Candidate>, ghost offsets: seq<nat>)
      returns (ok: bool)
      requires In(Idle) && LinesUp(answers, all, offsets)
      requires forall c <- all :: c.key in tables && Visible(c.key, tables[c.key])
      modifies `marks, `nextMark, `history, `states, `steps
      ensures In(Idle)
      ensures ok <==> !Hits(failAt, |all|)
      ensures var n := Through(failAt, |all|);
              marks == InsertAll(old(marks), old(nextMark), all, n) && nextMark == old(nextMark) + n
    {
      var i, done := 0, 0;
      ok := true;
      ghost var first, next := marks, nextMark;
      while ok && i < |answers|
        invariant 0 <= i <= |answers| && done == offsets[i] <= |all|
        invariant ok <==> !Hits(failAt, done)
        invariant In(Idle)
        invariant marks == InsertAll(first, next, all, Through(failAt, done))
        invariant nextMark == next + Through(failAt, done)
      {
        assert Fits(answers, all, offsets, i);
        ok := MarkTable(answers[i], failAt, done, all, first, next);
        done := done + |Candidates(answers[i])|;
        i := i + 1;
      }
    }

    /** `mark_all`. */
    method MarkAll(answers: seq<Option<seq<Candidate>>>, failAt: Option<nat>) returns (ok: bool)
      requires In(Idle)
      requires forall c <- Wanted(answers) :: c.key in tables && Visible(c.key, tables[c.key])
      modifies `marks, `nextMark, `history, `states, `steps
      ensures In(Idle)
      ensures ok <==> !Hits(failAt, |Wanted(answers)|)
      ensures var n := Through(failAt, |Wanted(answers)|);
              marks == InsertAll(old(marks), old(nextMark), Wanted(answers), n) && nextMark == old(nextMark) + n
    {
      ghost var offsets := WantedLinesUp(answers);
      ok := MarkTables(answers, failAt, Wanted(answers), offsets);
    }

    /** The claim's `UPDATE ... WHERE id IN (picked)`. */
    method UpdateClaimedMarks(picked: seq<nat>, who: L.Owner, now: int, until: int)
      requires In(Idle) && forall id <- picked :: id in marks && OpenFor(marks[id], who, now)
      modifies `marks, `history, `states, `steps
      ensures In(if dialect.MySql? then Reading(who, until) else Holding(picked))
      ensures marks == ClaimMarks(old(marks), picked, who, until) && marks.Keys == old(marks).Keys
      ensures forall id <- marks ::
                marks[id] ==
                if id in picked
                then old(marks)[id].(lease := L.Lease(Some(who), Some(until)), attempts := old(marks)[id].attempts + 1)
                else old(marks)[id]
    {
      Advance(Claim(who, now, until, picked, !dialect.MySql?));
      marks := ClaimMarks(marks, picked, who, until);
    }

    /**
     `claim_archive_marks`: stamp the lease on what the subselect picked, and on MySQL read back whatever
     carries the pair. The picked marks are held, even if the read-back fails; no other mark changes.
     */
    method ClaimBatch(
        picked: seq<nat>, answer: seq<nat>, who: L.Owner, now: int, until: int, limit: int, ghost skipped: set<nat>,
        faults: Faults)
      returns (outcome: Option<Outcome>)
      requires In(Idle)
      requires Picks(marks, who, now, limit, skipped, picked)
      requires Answers(dialect, marks, picked, who, until, answer)
      modifies `marks, `history, `states, `steps
      ensures outcome ==
              if faults.claim then Some(ClaimFailed)
              else if dialect.MySql? && faults.readBack then Some(ReadBackFailed)
              else None
      ensures In(if outcome.None? then Holding(answer) else Idle)
      ensures marks == if faults.claim then old(marks) else ClaimMarks(old(marks), picked, who, until)
      ensures marks.Keys == old(marks).Keys
      ensures forall id <- marks ::
                marks[id] ==
                if id in picked && !faults.claim
                then old(marks)[id].(lease := L.Lease(Some(who), Some(until)), attempts := old(marks)[id].attempts + 1)
                else old(marks)[id]
      ensures forall id <- picked ::
                && id in old(marks) && !old(marks)[id].archived
                && (old(marks)[id].lease.until.None? || old(marks)[id].lease.until.value <= now
                    || old(marks)[id].lease.owner == Some(who))
      ensures if dialect.MySql?
              then !faults.claim ==> forall id ::
                id in answer <==> id in marks && marks[id].lease == L.Lease(Some(who), Some(until))
              else answer == picked
    {
      PickedAreOpen(marks, who, now, limit, skipped, picked);
      if faults.claim {
        return Some(ClaimFailed);
      }
      UpdateClaimedMarks(picked, who, now, until);
      if dialect.MySql? {
        if faults.readBack {
          Advance(Crash);
          return Some(ReadBackFailed);
        }
        Advance(ReadBack(answer));
      }
      outcome := None;
    }

    /** `fetch_archive_row`: a mark whose row is gone, or not visible, adds nothing. */
    method ReadRow(id: nat, rows: seq<Fetched>, ghost ids: seq<nat>, ghost i: nat) returns (more: seq<Fetched>)
      requires i < |ids| && ids[i] == id && In(Fetching(ids[i..], ids, rows))
      requires rows == FetchAll(tables, marks, ids[..i])
      modifies `history, `states, `steps
      ensures In(Fetching(ids[i + 1..], ids, more))
      ensures more == FetchAll(tables, marks, ids[..i + 1])
    {
      Advance(FetchOne);
      assert ids[..i + 1][..i] == ids[..i];
      assert ids[i..][1..] == ids[i + 1..];
      var row := FetchRow(tables, marks, id);
      more := if row.Some? then rows + [row.value] else rows;
    }

    /** `fetch_archive_rows`: marks whose row is gone are passed over; read `failAt` may fail. */
    method FetchRows(ids: seq<nat>, failAt: Option<nat>) returns (ok: bool, rows: seq<Fetched>)
      requires In(Fetching(ids, ids, []))
      modifies `history, `states, `steps
      ensures ok <==> failAt.None? || failAt.value >= |ids|
      ensures In(if ok then Fetching([], ids, rows) else Failing(ids))
      ensures ok ==> rows == FetchAll(tables, marks, ids)
    {
      rows := [];
      var i := 0;
      while i < |ids|
        invariant 0 <= i <= |ids|
        invariant In(Fetching(ids[i..], ids, rows))
        invariant rows == FetchAll(tables, marks, ids[..i])
        invariant failAt.Some? ==> i <= failAt.value
      {
        if failAt == Some(i) {
          Advance(GiveUp);
          return false, [];
        }
        rows := ReadRow(ids[i], rows, ids, i);
        i := i + 1;
      }
      assert ids[..i] == ids;
      ok := true;
    }

    /** One file, renamed into place when complete. */
    method WriteFile(ghost groups: seq<seq<Fetched>>, ghost i: nat, group: seq<Fetched>, ghost claimed: seq<nat>,
                     ghost rows: seq<Fetched>)
      requires i < |groups| && groups[i] == group && In(Writing(groups[i..], claimed, rows))
      modifies `files, `history, `states, `steps
      ensures In(Writing(groups[i + 1..], claimed, rows))
      ensures files == old(files) + [Lines(group)]
    {
      Advance(WriteOne);
      assert groups[i..][1..] == groups[i + 1..];
      files := files + [Lines(group)];
    }

    /** One file per group, up to a failing one. */
    method WriteGroups(groups: seq<seq<Fetched>>, claimed: seq<nat>, ghost rows: seq<Fetched>, failAt: Option<nat>)
      returns (ok: bool)
      requires In(Writing(groups, claimed, rows))
      modifies `files, `history, `states, `steps
      ensures ok <==> failAt.None? || failAt.value >= |groups|
      ensures In(if ok then Deleting(rows, rows) else Failing(claimed))
      ensures files == old(files) + FilesFor(if ok then groups else groups[..failAt.value])
    {
      var i := 0;
      while i < |groups|
        invariant 0 <= i <= |groups|
        invariant In(Writing(groups[i..], claimed, rows))
        invariant files == old(files) + FilesFor(groups[..i])
        invariant failAt.Some? ==> i <= failAt.value
      {
        if failAt == Some(i) {
          Advance(GiveUp);
          return false;
        }
        assert FilesFor(groups[..i + 1]) == FilesFor(groups[..i]) + [Lines(groups[i])];
        WriteFile(groups, i, groups[i], claimed, rows);
        i := i + 1;
      }
      assert groups[..i] == groups;
      Advance(WriteDone);
      ok := true;
    }

    /**
     `write_archive_jsonl_files`: if a file fails, those before it stay and nothing is deleted.
     */
    method WriteFiles(claimed: seq<nat>, rows: seq<Fetched>, failAt: Option<nat>)
      returns (ok: bool, ghost keys: seq<GroupKey>)
      requires In(Fetching([], claimed, rows)) && rows != []
      modifies `files, `history, `states, `steps
      ensures EachOnce(keys, GroupsIn(rows)) && |keys| == |GroupsIn(rows)|
      ensures ok <==> failAt.None? || failAt.value >= |GroupsIn(rows)|
      ensures In(if ok then Deleting(rows, rows) else Failing(claimed))
      ensures var groups := GroupsFor(rows, keys);
              files == old(files) + FilesFor(if ok then groups else groups[..failAt.value])
    {
      var groups := GroupRows(rows);
      var parts;
      parts, keys := ListGroups(groups);
      assert parts == GroupsFor(rows, keys);
      GroupsCover(rows, keys);
      EachOnceCounts(keys, GroupsIn(rows));
      Advance(FetchDone(false, parts));
      ok := WriteGroups(parts, claimed, rows, failAt);
    }

    /** One `UPDATE archive_marks SET status = 'archived' ... WHERE id = ?`. */
    method CompleteMark(id: nat, ghost ids: seq<nat>, ghost i: nat, ghost first: map<nat, Mark>)
      requires i < |ids| && ids[i] == id && In(Completing(ids[i..])) && marks == CompleteAll(first, ids[..i])
      modifies `marks, `history, `states, `steps
      ensures In(Completing(ids[i + 1..]))
      ensures marks == Archive.CompleteMark(old(marks), id) == CompleteAll(first, ids[..i + 1])
      ensures marks ==
              if id in old(marks) then old(marks)[id := old(marks)[id].(archived := true, lease := L.Lease(None, None))]
              else old(marks)
    {
      CompleteAllGrows(first, ids, i);
      Advance(CompleteOne);
      assert ids[i..][1..] == ids[i + 1..];
      if id in marks {
        marks := marks[id := marks[id].(archived := true, lease := L.FREE)];
      }
    }

    /** The loop of `complete_archive_marks`; an error ends the pass as a crash does. */
    method CompleteEach(ids: seq<nat>, failAt: Option<nat>) returns (ok: bool)
      requires In(Completing(ids))
      modifies `marks, `history, `states, `steps
      ensures ok <==> !Hits(failAt, |ids|)
      ensures In(if ok then Completing([]) else Idle)
      ensures marks == CompleteAll(old(marks), PartDone(ids, failAt))
    {
      var i := 0;
      while i < |ids|
        invariant 0 <= i <= |ids|
        invariant In(Completing(ids[i..]))
        invariant marks == CompleteAll(old(marks), ids[..i])
        invariant failAt.Some? ==> i <= failAt.value
      {
        if failAt == Some(i) {
          Advance(Crash);
          return false;
        }
        CompleteMark(ids[i], ids, i, old(marks));
        i := i + 1;
      }
      ok := true;
    }

    /** `complete_archive_marks`. */
    method CompleteMarks(ids: seq<nat>, failAt: Option<nat>) returns (ok: bool)
      requires In(Completing(ids))
      modifies `marks, `history, `states, `steps
      ensures In(Idle)
      ensures ok <==> !Hits(failAt, |ids|)
      ensures marks == CompleteAll(old(marks), PartDone(ids, failAt))
    {
      ok := CompleteEach(ids, failAt);
      if ok {
        Advance(Finish);
      }
    }

    /** One `UPDATE archive_marks SET claimed_by = NULL ... WHERE id = ? AND status = 'marked'`. */
    method FailMark(id: nat, ghost ids: seq<nat>, ghost i: nat, ghost first: map<nat, Mark>)
      requires i < |ids| && ids[i] == id && In(Failing(ids[i..])) && marks == FailAll(first, ids[..i])
      modifies `marks, `history, `states, `steps
      ensures In(Failing(ids[i + 1..]))
      ensures marks == Archive.FailMark(old(marks), id) == FailAll(first, ids[..i + 1])
      ensures marks ==
              if id in old(marks) && !old(marks)[id].archived
              then old(marks)[id := old(marks)[id].(lease := L.Lease(None, None))]
              else old(marks)
    {
      FailAllGrows(first, ids, i);
      Advance(FailOne);
      assert ids[i..][1..] == ids[i + 1..];
      if id in marks && !marks[id].archived {
        marks := marks[id := marks[id].(lease := L.FREE)];
      }
    }

    /** The loop of `fail_archive_marks`; an error ends the pass as a crash does. */
    method FailEach(ids: seq<nat>, failAt: Option<nat>) returns (ok: bool)
      requires In(Failing(ids))
      modifies `marks, `history, `states, `steps
      ensures ok <==> !Hits(failAt, |ids|)
      ensures In(if ok then Failing([]) else Idle)
      ensures marks == FailAll(old(marks), PartDone(ids, failAt))
    {
      var i := 0;
      while i < |ids|
        invariant 0 <= i <= |ids|
        invariant In(Failing(ids[i..]))
        invariant marks == FailAll(old(marks), ids[..i])
        invariant failAt.Some? ==> i <= failAt.value
      {
        if failAt == Some(i) {
          Advance(Crash);
          return false;
        }
        FailMark(ids[i], ids, i, old(marks));
        i := i + 1;
      }
      ok := true;
    }

    /** `fail_archive_marks`. */
    method FailMarks(ids: seq<nat>, failAt: Option<nat>)
      requires In(Failing(ids))
      modifies `marks, `history, `states, `steps
      ensures In(Idle)
      ensures marks == FailAll(old(marks), PartDone(ids, failAt))
    {
      var ok := FailEach(ids, failAt);
      if ok {
        Advance(Finish);
      }
    }

    /** One `DELETE ... WHERE id = ?`. */
    method DeleteRow(r: Fetched, ghost rows: seq<Fetched>, ghost i: nat)
      requires i < |rows| && rows[i] == r && In(Deleting(rows[i..], rows))
      modifies `tables, `history, `states, `steps
      ensures In(Deleting(rows[i + 1..], rows))
      ensures tables == old(tables) - {r.key}
    {
      Advance(DeleteOne);
      assert rows[i..][1..] == rows[i + 1..];
      tables := tables - {r.key};
    }

    /** `delete_archive_rows`; an error ends the pass as a crash does. */
    method DeleteRows(rows: seq<Fetched>, failAt: Option<nat>) returns (ok: bool)
      requires In(Deleting(rows, rows))
      modifies `tables, `history, `states, `steps
      ensures ok <==> !Hits(failAt, |rows|)
      ensures In(if ok then Completing(MarkIds(rows)) else Idle)
      ensures tables == old(tables) - RowKeys(PartDone(rows, failAt))
    {
      var i := 0;
      while i < |rows|
        invariant 0 <= i <= |rows|
        invariant In(Deleting(rows[i..], rows))
        invariant tables == old(tables) - RowKeys(rows[..i])
        invariant failAt.Some? ==> i <= failAt.value
      {
        if failAt == Some(i) {
          Advance(Crash);
          return false;
        }
        RowKeysGrow(old(tables), rows, i);
        DeleteRow(rows[i], rows, i);
        i := i + 1;
      }
      assert rows[..i] == rows;
      Advance(DeleteDone);
      ok := true;
    }

    /** The rows go, and then their marks complete. */
    method DeleteThenComplete(rows: seq<Fetched>, faults: Faults) returns (outcome: Outcome)
      requires In(Deleting(rows, rows)) && rows != []
      modifies `tables, `marks, `history, `states, `steps
      ensures In(Idle)
      ensures outcome ==
              if Hits(faults.delete, |rows|) then DeleteFailed
              else if Hits(faults.complete, |rows|) then CompleteFailed
              else Archived
      ensures forall picked :: marks == MarksAfter(outcome, old(marks), picked, rows, faults)
      ensures tables == TablesAfter(outcome, old(tables), rows, faults)
    {
      var deleted := DeleteRows(rows, faults.delete);
      if !deleted {
        return DeleteFailed;
      }
      var completed := CompleteMarks(MarkIds(rows), faults.complete);
      outcome := if completed then Archived else CompleteFailed;
    }

    /** The files come first; rows go, and their marks complete, only when all are in place. */
    method WriteThenDelete(picked: seq<nat>, rows: seq<Fetched>, faults: Faults)
      returns (outcome: Outcome, ghost keys: seq<GroupKey>)
      requires In(Fetching([], picked, rows)) && rows != []
      modifies this
      ensures In(Idle)
      ensures outcome ==
              if Hits(faults.write, |GroupsIn(rows)|) then WriteFailed
              else if Hits(faults.delete, |rows|) then DeleteFailed
              else if Hits(faults.complete, |rows|) then CompleteFailed
              else Archived
      ensures marks == MarksAfter(outcome, old(marks), picked, rows, faults)
      ensures tables == TablesAfter(outcome, old(tables), rows, faults)
      ensures Wrote(outcome, rows, keys, faults, old(files), files)
    {
      var written;
      written, keys := WriteFiles(picked, rows, faults.write);
      if written {
        outcome := DeleteThenComplete(rows, faults);
      } else {
        FailMarks(picked, faults.fail);
        outcome := WriteFailed;
      }
    }

    /** None of the claimed marks has a row left. */
    method CompleteEmpty(picked: seq<nat>, dryRun: bool, faults: Faults) returns (outcome: Outcome)
      requires In(Fetching([], picked, []))
      modifies `marks, `history, `states, `steps
      ensures In(Idle)
      ensures outcome == if Hits(faults.complete, |picked|) then CompleteFailed else NothingLeft
      ensures marks == MarksAfter(outcome, old(marks), picked, [], faults)
      ensures tables == TablesAfter(outcome, tables, [], faults)
    {
      Advance(FetchDone(dryRun, []));
      var completed := CompleteMarks(picked, faults.complete);
      assert tables - RowKeys([]) == tables;
      outcome := if completed then NothingLeft else CompleteFailed;
    }

    /**
     `run_once` from the fetch on. Rows leave the tables only after every file is in place, never in a dry
     run, and the marks of a dry run or a failed fetch or write are free again.
     */
    method ArchiveClaimed(picked: seq<nat>, dryRun: bool, faults: Faults)
      returns (outcome: Outcome, ghost keys: seq<GroupKey>)
      requires picked != [] && In(Fetching(picked, picked, []))
      modifies this
      ensures In(Idle)
      ensures var rows := FetchAll(old(tables), old(marks), picked);
              && outcome == Decide(picked, rows, dryRun, faults)
              && marks == MarksAfter(outcome, old(marks), picked, rows, faults)
              && tables == TablesAfter(outcome, old(tables), rows, faults)
              && Wrote(outcome, rows, keys, faults, old(files), files)
    {
      keys := [];
      var fetched, rows := FetchRows(picked, faults.fetch);
      if !fetched {
        FailMarks(picked, faults.fail);
        return FetchFailed, [];
      }
      if rows == [] {
        outcome := CompleteEmpty(picked, dryRun, faults);
        return outcome, [];
      }
      if dryRun {
        Advance(FetchDone(true, [rows]));
        FailMarks(picked, faults.fail);
        return DryRun, [];
      }
      outcome, keys := WriteThenDelete(picked, rows, faults);
    }

    /**
     `run_once`: what the queries answered, which marks the claim picked and which statements fail are
     given. A query that fails leaves what the statement after it would leave by failing.
     */
    method RunOnce(
        answers: seq<Option<seq<Candidate>>>, picked: seq<nat>, answer: seq<nat>, who: L.Owner, now: int, until: int,
        limit: int, ghost skipped: set<nat>, dryRun: bool, faults: Faults)
      returns (outcome: Outcome, ghost keys: seq<GroupKey>)
      requires In(Idle)
      requires forall c <- Wanted(answers) :: c.key in tables && Visible(c.key, tables[c.key])
      requires Picks(AllMarked(marks, nextMark, answers), who, now, limit, skipped, picked)
      requires Answers(dialect, AllMarked(marks, nextMark, answers), picked, who, until, answer)
      modifies this
      ensures In(Idle)
      ensures var wanted := Wanted(answers);
              var marked := InsertAll(old(marks), old(nextMark), wanted, Through(faults.mark, |wanted|));
              var claimed := ClaimMarks(marked, picked, who, until);
              var rows := FetchAll(old(tables), claimed, answer);
              if Hits(faults.mark, |wanted|) then
                outcome == MarkFailed && marks == marked && tables == old(tables) && files == old(files)
              else if faults.claim then
                outcome == ClaimFailed && marks == marked && tables == old(tables) && files == old(files)
              else if dialect.MySql? && faults.readBack then
                outcome == ReadBackFailed && marks == claimed && tables == old(tables) && files == old(files)
              else
                && outcome == Decide(answer, rows, dryRun, faults)
                && marks == MarksAfter(outcome, claimed, answer, rows, faults)
                && tables == TablesAfter(outcome, old(tables), rows, faults)
                && Wrote(outcome, rows, keys, faults, old(files), files)
      ensures answer == [] ==> tables == old(tables) && files == old(files)
    {
      keys := [];
      var marked := MarkAll(answers, faults.mark);
      if !marked {
        return MarkFailed, [];
      }
      var failed := ClaimBatch(picked, answer, who, now, until, limit, skipped, faults);
      if failed.Some? {
        return failed.value, [];
      }
      if answer == [] {
        return NothingClaimed, [];
      }
      outcome, keys := ArchiveClaimed(answer, dryRun, faults);
    }
  }
}
