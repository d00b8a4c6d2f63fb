/**
 Log chunks of a node run: how appends number them and what a reader that pages by the last sequence
 it saw gets to see while appends go on (runinator-database/src/operations.rs). The run chunk table
 has the same two statements.
 */
module Chunks {
  import opened Wrappers
  import opened NodeRuns

  /** The chunks of one node run, in insertion order. */
  function Of(chunks: seq<Chunk>, x: nat): seq<Chunk> {
    if chunks == [] then []
    else
      var last := chunks[|chunks| - 1];
      Of(chunks[..|chunks| - 1], x) + if last.nodeRun == x then [last] else []
  }

  ghost predicate Numbered(chunks: seq<Chunk>, x: nat) {
    forall i :: 0 <= i < |Of(chunks, x)| ==> Of(chunks, x)[i].sequence == i + 1
  }

  lemma {:induction false} OfPrefix(chunks: seq<Chunk>, x: nat, n: nat)
    requires n <= |chunks|
    ensures Of(chunks[..n], x) <= Of(chunks, x)
    decreases |chunks|
  {
    if n < |chunks| {
      OfPrefix(chunks[..|chunks| - 1], x, n);
      assert chunks[..|chunks| - 1][..n] == chunks[..n];
    } else {
      assert chunks[..n] == chunks;
    }
  }

  lemma {:induction false} MaxIsCount(chunks: seq<Chunk>, x: nat)
    requires Numbered(chunks, x)
    ensures MaxSequence(chunks, x) == |Of(chunks, x)|
  {
    if chunks != [] {
      var front := chunks[..|chunks| - 1];
      OfPrefix(chunks, x, |front|);
      assert forall i :: 0 <= i < |Of(front, x)| ==> Of(front, x)[i] == Of(chunks, x)[i];
      MaxIsCount(front, x);
      if chunks[|front|].nodeRun == x {
        assert Of(chunks, x)[|Of(front, x)|] == chunks[|front|];
      } else {
        assert Of(chunks, x) == Of(front, x);
      }
    }
  }

  lemma AppendKeepsNumbered(chunks: seq<Chunk>, nodeRun: nat, stream: string, content: string, at: int, x: nat)
    requires Numbered(chunks, nodeRun) && Numbered(chunks, x)
    ensures Numbered(Append(chunks, nodeRun, stream, content, at), x)
  {
    MaxIsCount(chunks, nodeRun);
    assert Append(chunks, nodeRun, stream, content, at)[..|chunks|] == chunks;
  }

  /** In every reachable state the chunks of a node run are numbered 1, 2, ..., n. */
  lemma {:induction false} SequencesAreContiguous(states: seq<NodeDb>, steps: seq<Step>, k: nat, x: nat)
    requires Run(states, steps) && k < |states|
    ensures Numbered(states[k].chunks, x)
    decreases k
  {
    if k > 0 {
      SequencesAreContiguous(states, steps, k - 1, x);
      var before, after := states[k - 1].chunks, states[k].chunks;
      if after != before {
        var y, stream, content, at :| after == Append(before, y, stream, content, at);
        SequencesAreContiguous(states, steps, k - 1, y);
        AppendKeepsNumbered(before, y, stream, content, at, x);
      }
    }
  }

  lemma {:induction false} ChunksOnlyGrow(states: seq<NodeDb>, steps: seq<Step>, i: nat, j: nat)
    requires Run(states, steps) && i <= j < |states|
    ensures states[i].chunks <= states[j].chunks
    decreases j
  {
    if i < j {
      ChunksOnlyGrow(states, steps, i, j - 1);
    }
  }

  // ---- one page ----

  /** `WHERE workflow_node_run_id = ? AND sequence > ?`, by position in the table. */
  predicate InPool(chunks: seq<Chunk>, x: nat, cursor: int, i: nat) {
    i < |chunks| && chunks[i].nodeRun == x && chunks[i].sequence > cursor
  }

  /** `limit.clamp(1, 1000)`. */
  function Clamp(limit: int): nat {
    if limit < 1 then 1 else if limit > 1000 then 1000 else limit
  }

  /**
   An answer to the page query: rows of the pool, each once, in sequence order, as many as fit, with
   nothing left out that comes before a row returned. Rows with equal numbers come in any order.
   */
  ghost predicate IsPage(chunks: seq<Chunk>, x: nat, cursor: int, limit: int, page: seq<nat>) {
    && (forall k :: 0 <= k < |page| ==> InPool(chunks, x, cursor, page[k]))
    && (forall k, l :: 0 <= k < l < |page| ==>
          page[k] != page[l] && chunks[page[k]].sequence <= chunks[page[l]].sequence)
    && |page| <= Clamp(limit)
    && (forall i: nat :: InPool(chunks, x, cursor, i) && i !in page ==>
          |page| == Clamp(limit) && forall k :: 0 <= k < |page| ==> chunks[page[k]].sequence <= chunks[i].sequence)
  }

  function Rows(chunks: seq<Chunk>, page: seq<nat>): seq<Chunk>
    requires forall i <- page :: i < |chunks|
  {
    seq(|page|, k requires 0 <= k < |page| => assert page[k] in page; chunks[page[k]])
  }

  lemma {:induction false} RowAt(chunks: seq<Chunk>, x: nat, i: nat)
    requires Numbered(chunks, x) && i < |chunks| && chunks[i].nodeRun == x
    ensures chunks[i].sequence == |Of(chunks[..i], x)| + 1 <= |Of(chunks, x)|
    ensures Of(chunks, x)[chunks[i].sequence - 1] == chunks[i]
  {
    OfPrefix(chunks, x, i + 1);
    assert chunks[..i + 1][..i] == chunks[..i];
    assert Of(chunks[..i + 1], x) == Of(chunks[..i], x) + [chunks[i]];
    assert Of(chunks, x)[|Of(chunks[..i], x)|] == chunks[i];
  }

  lemma DifferentRowsDiffer(chunks: seq<Chunk>, x: nat, i: nat, j: nat)
    requires Numbered(chunks, x) && i < j < |chunks| && chunks[i].nodeRun == chunks[j].nodeRun == x
    ensures chunks[i].sequence < chunks[j].sequence
  {
    RowAt(chunks, x, i);
    RowAt(chunks, x, j);
    OfPrefix(chunks[..j], x, i + 1);
    assert chunks[..j][..i + 1] == chunks[..i + 1] && chunks[..i + 1][..i] == chunks[..i];
  }

  lemma {:induction false} RowNumbered(chunks: seq<Chunk>, x: nat, s: nat) returns (i: nat)
    requires Numbered(chunks, x) && 1 <= s <= |Of(chunks, x)|
    ensures i < |chunks| && chunks[i].nodeRun == x && chunks[i].sequence == s
    decreases |chunks|
  {
    var front := chunks[..|chunks| - 1];
    OfPrefix(chunks, x, |front|);
    if s <= |Of(front, x)| {
      assert forall k :: 0 <= k < |Of(front, x)| ==> Of(front, x)[k] == Of(chunks, x)[k];
      i := RowNumbered(front, x, s);
    } else {
      assert Of(chunks, x)[|Of(front, x)|] == chunks[|front|];
      i := |front|;
    }
  }

  /** Row `k` of a page has the number right after the k rows before it. */
  lemma {:induction false} PageCounts(chunks: seq<Chunk>, x: nat, cursor: nat, limit: int, page: seq<nat>, k: nat)
    requires Numbered(chunks, x) && IsPage(chunks, x, cursor, limit, page) && k < |page|
    ensures chunks[page[k]].sequence == cursor + 1 + k
  {
    if k > 0 { PageCounts(chunks, x, cursor, limit, page, k - 1); }
    RowAt(chunks, x, page[k]);
    if k > 0 {
      if page[k - 1] < page[k] {
        DifferentRowsDiffer(chunks, x, page[k - 1], page[k]);
      } else {
        DifferentRowsDiffer(chunks, x, page[k], page[k - 1]);
      }
    }
    if chunks[page[k]].sequence > cursor + 1 + k {
      var i := RowNumbered(chunks, x, cursor + 1 + k);
      assert InPool(chunks, x, cursor, i);
      if i in page {
        var l :| 0 <= l < |page| && page[l] == i;
        if l < k { PageCounts(chunks, x, cursor, limit, page, l); }
      }
    }
  }

  lemma PageFits(chunks: seq<Chunk>, x: nat, cursor: nat, limit: int, page: seq<nat>, k: nat)
    requires Numbered(chunks, x) && IsPage(chunks, x, cursor, limit, page) && k < |page|
    ensures cursor + 1 + k <= |Of(chunks, x)| && chunks[page[k]] == Of(chunks, x)[cursor + k]
  {
    PageCounts(chunks, x, cursor, limit, page, k);
    RowAt(chunks, x, page[k]);
  }

  lemma PageIsFull(chunks: seq<Chunk>, x: nat, cursor: nat, limit: int, page: seq<nat>)
    requires Numbered(chunks, x) && IsPage(chunks, x, cursor, limit, page)
    requires cursor + |page| < |Of(chunks, x)|
    ensures |page| == Clamp(limit)
  {
    var i := RowNumbered(chunks, x, cursor + |page| + 1);
    assert InPool(chunks, x, cursor, i);
    if i in page {
      var l :| 0 <= l < |page| && page[l] == i;
      PageCounts(chunks, x, cursor, limit, page, l);
    }
  }

  lemma PageEnds(chunks: seq<Chunk>, x: nat, cursor: nat, limit: int, page: seq<nat>)
    requires Numbered(chunks, x) && IsPage(chunks, x, cursor, limit, page) && cursor <= |Of(chunks, x)|
    ensures |page| == Min(Clamp(limit), |Of(chunks, x)| - cursor)
    ensures page != [] ==> chunks[page[|page| - 1]].sequence == cursor + |page|
  {
    if page != [] {
      PageFits(chunks, x, cursor, limit, page, |page| - 1);
      PageCounts(chunks, x, cursor, limit, page, |page| - 1);
    }
    if cursor + |page| < |Of(chunks, x)| { PageIsFull(chunks, x, cursor, limit, page); }
  }

  /** The next rows of `all` after the first `cursor`, as many as a limit allows. */
  ghost predicate IsStretch(all: seq<Chunk>, cursor: int, limit: int, rows: seq<Chunk>) {
    && 0 <= cursor <= |all|
    && |rows| == Min(if limit < 1 then 1 else if limit > 1000 then 1000 else limit, |all| - cursor)
    && rows == all[cursor..cursor + |rows|]
    && (rows != [] ==> rows[|rows| - 1].sequence == cursor + |rows|)
  }

  /**
   On a contiguously numbered table the page after `cursor` is the next stretch of the node run's
   chunks, in order: the query has one answer, and it is empty exactly when the reader is caught up.
   */
  lemma PageIsNextStretch(chunks: seq<Chunk>, x: nat, cursor: nat, limit: int, page: seq<nat>)
    requires Numbered(chunks, x) && IsPage(chunks, x, cursor, limit, page) && cursor <= |Of(chunks, x)|
    requires forall i <- page :: i < |chunks|
    ensures IsStretch(Of(chunks, x), cursor, limit, Rows(chunks, page))
    ensures page == [] <==> cursor == |Of(chunks, x)|
  {
    PageEnds(chunks, x, cursor, limit, page);
    var rows := Rows(chunks, page);
    forall k | 0 <= k < |rows| ensures rows[k] == Of(chunks, x)[cursor + k] {
      PageFits(chunks, x, cursor, limit, page, k);
    }
  }

  // ---- paging while appends go on ----

  /** One page read: when, how many rows at most, and the rows that came back. */
  datatype Read = Read(at: nat, limit: int, rows: seq<Chunk>)

  /** The last sequence seen, starting from none (`cursor.unwrap_or(0)`). */
  function Cursor(pages: seq<Read>): int {
    if pages == [] then 0
    else
      var rows := pages[|pages| - 1].rows;
      if rows == [] then Cursor(pages[..|pages| - 1]) else rows[|rows| - 1].sequence
  }

  function Received(pages: seq<Read>): seq<Chunk> {
    if pages == [] then [] else Received(pages[..|pages| - 1]) + pages[|pages| - 1].rows
  }

  ghost predicate Answers(chunks: seq<Chunk>, x: nat, cursor: int, limit: int, rows: seq<Chunk>) {
    exists page :: IsPage(chunks, x, cursor, limit, page)
                   && (forall i <- page :: i < |chunks|) && rows == Rows(chunks, page)
  }

  /** A read asks for what comes after the last sequence seen. */
  ghost predicate AsksOn(tables: seq<seq<Chunk>>, x: nat, before: seq<Read>, next: Read) {
    next.at < |tables| && Answers(tables[next.at], x, Cursor(before), next.limit, next.rows)
  }

  /** Reads one after the other, with any steps in between; `tables` is the chunk table over time. */
  ghost predicate Reader(tables: seq<seq<Chunk>>, x: nat, pages: seq<Read>)
    decreases |pages|
  {
    pages != [] ==>
      var front, last := pages[..|pages| - 1], pages[|pages| - 1];
      && Reader(tables, x, front) && AsksOn(tables, x, front, last)
      && (front != [] ==> front[|front| - 1].at <= last.at)
  }

  lemma AnswerIsNextStretch(chunks: seq<Chunk>, x: nat, cursor: nat, limit: int, rows: seq<Chunk>)
    requires Numbered(chunks, x) && Answers(chunks, x, cursor, limit, rows) && cursor <= |Of(chunks, x)|
    ensures IsStretch(Of(chunks, x), cursor, limit, rows)
  {
    var page :| IsPage(chunks, x, cursor, limit, page)
                && (forall i <- page :: i < |chunks|) && rows == Rows(chunks, page);
    PageIsNextStretch(chunks, x, cursor, limit, page);
  }

  /** The reader has the first `Cursor` chunks of all there are. */
  ghost predicate CaughtUpTo(all: seq<Chunk>, pages: seq<Read>) {
    && 0 <= Cursor(pages) <= |all|
    && Received(pages) == all[..Cursor(pages)]
  }

  /**
   The reader has received every chunk up to its cursor, once and in order; and its last page is empty
   exactly when it already had everything there was.
   */
  ghost predicate Complete(tables: seq<seq<Chunk>>, x: nat, pages: seq<Read>)
    requires pages != [] && pages[|pages| - 1].at < |tables|
  {
    var last := pages[|pages| - 1];
    && CaughtUpTo(Of(tables[last.at], x), pages)
    && (last.rows == [] <==> Received(pages[..|pages| - 1]) == Of(tables[last.at], x))
  }

  ghost predicate Grow(tables: seq<seq<Chunk>>) {
    forall i, j :: 0 <= i <= j < |tables| ==> tables[i] <= tables[j]
  }

  lemma CaughtUpSurvives(a: seq<Chunk>, b: seq<Chunk>, x: nat, pages: seq<Read>)
    requires a <= b && CaughtUpTo(Of(a, x), pages)
    ensures CaughtUpTo(Of(b, x), pages)
  {
    OfPrefix(b, x, |a|);
    assert b[..|a|] == a;
  }

  lemma OnePageMore(pages: seq<Read>, next: Read)
    ensures Received(pages + [next]) == Received(pages) + next.rows
    ensures Cursor(pages + [next]) == if next.rows == [] then Cursor(pages) else next.rows[|next.rows| - 1].sequence
    ensures (pages + [next])[..|pages|] == pages
  {
    assert (pages + [next])[..|pages|] == pages;
  }

  lemma StretchesJoin<T>(all: seq<T>, c: nat, n: nat)
    requires c + n <= |all|
    ensures all[..c] + all[c..c + n] == all[..c + n]
    ensures all[..c] == all <==> c == |all|
  {
    if c < |all| { assert |all[..c]| < |all|; }
  }

  lemma StretchCatchesUp(all: seq<Chunk>, pages: seq<Read>, next: Read)
    requires CaughtUpTo(all, pages) && IsStretch(all, Cursor(pages), next.limit, next.rows)
    ensures CaughtUpTo(all, pages + [next])
    ensures next.rows == [] <==> Received(pages) == all
  {
    OnePageMore(pages, next);
    StretchesJoin(all, Cursor(pages), |next.rows|);
  }

  lemma NextReadCatchesUp(chunks: seq<Chunk>, x: nat, pages: seq<Read>, next: Read)
    requires Numbered(chunks, x) && CaughtUpTo(Of(chunks, x), pages)
    requires Answers(chunks, x, Cursor(pages), next.limit, next.rows)
    ensures CaughtUpTo(Of(chunks, x), pages + [next])
    ensures next.rows == [] <==> Received(pages) == Of(chunks, x)
  {
    AnswerIsNextStretch(chunks, x, Cursor(pages), next.limit, next.rows);
    StretchCatchesUp(Of(chunks, x), pages, next);
  }

  /** On tables that grow and stay contiguously numbered every reader is complete. */
  lemma {:induction false} ReadersAreComplete(tables: seq<seq<Chunk>>, x: nat, pages: seq<Read>)
    requires Grow(tables) && forall k :: 0 <= k < |tables| ==> Numbered(tables[k], x)
    requires Reader(tables, x, pages) && pages != []
    ensures Complete(tables, x, pages)
    decreases |pages|
  {
    var front, last := pages[..|pages| - 1], pages[|pages| - 1];
    if front != [] {
      ReadersAreComplete(tables, x, front);
      CaughtUpSurvives(tables[front[|front| - 1].at], tables[last.at], x, front);
    }
    NextReadCatchesUp(tables[last.at], x, front, last);
    assert pages == front + [last];
  }

  function Tables(states: seq<NodeDb>): seq<seq<Chunk>> {
    seq(|states|, k requires 0 <= k < |states| => states[k].chunks)
  }

  /** Whatever is appended between its reads, a reader of a node run's chunks is complete. */
  lemma PagingIsComplete(states: seq<NodeDb>, steps: seq<Step>, x: nat, pages: seq<Read>)
    requires Run(states, steps) && Reader(Tables(states), x, pages) && pages != []
    ensures Complete(Tables(states), x, pages)
  {
    var tables := Tables(states);
    forall i, j | 0 <= i <= j < |tables| ensures tables[i] <= tables[j] { ChunksOnlyGrow(states, steps, i, j); }
    forall k | 0 <= k < |tables| ensures Numbered(tables[k], x) { SequencesAreContiguous(states, steps, k, x); }
    ReadersAreComplete(tables, x, pages);
  }

  // ---- two appends that race ----

  lemma EmptyPoolEmptyPage(chunks: seq<Chunk>, x: nat, cursor: int, limit: int, page: seq<nat>)
    requires IsPage(chunks, x, cursor, limit, page)
    ensures page != [] ==> InPool(chunks, x, cursor, page[0])
  {
  }

  function Raced(chunks: seq<Chunk>, x: nat, a: string, b: string, at: int): seq<Chunk> {
    var m := MaxSequence(chunks, x);
    chunks + [Chunk(x, m + 1, "log", a, at), Chunk(x, m + 1, "log", b, at)]
  }

  /**
   Outside a transaction an append reads the greatest number in one statement and inserts in the
   next. Two appends that both read before either inserts store the same number, and a reader whose
   page, of whatever length, holds exactly one of the two finds nothing after it.
   */
  lemma RacingAppendsLoseAChunk(
      chunks: seq<Chunk>, x: nat, a: string, b: string, at: int, cursor: int, limit: int, page: seq<nat>,
      more: int, next: seq<nat>)
    requires Numbered(chunks, x)
    requires IsPage(Raced(chunks, x, a, b, at), x, cursor, limit, page)
    requires |chunks| in page <==> |chunks| + 1 !in page
    requires forall i <- page :: i <= |chunks| + 1
    requires IsPage(Raced(chunks, x, a, b, at), x, Raced(chunks, x, a, b, at)[page[|page| - 1]].sequence, more, next)
    ensures next == []
  {
    var raced, m := Raced(chunks, x, a, b, at), MaxSequence(chunks, x);
    MaxIsCount(chunks, x);
    forall i: nat | i < |chunks| && chunks[i].nodeRun == x ensures chunks[i].sequence <= m {
      RowAt(chunks, x, i);
    }
    var one := if |chunks| in page then |chunks| else |chunks| + 1;
    var k :| 0 <= k < |page| && page[k] == one;
    assert raced[page[|page| - 1]].sequence >= m + 1;
    EmptyPoolEmptyPage(raced, x, raced[page[|page| - 1]].sequence, more, next);
  }
}
