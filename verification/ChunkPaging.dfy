/**
 Paging through a node run's chunks while their appends race (runinator-database/src/operations.rs).
 */
module ChunkPaging {
  import opened NodeRuns
  import opened Chunks
  import R = ChunkRaces

  function TablesOf(states: seq<R.State>): seq<seq<Chunk>> {
    seq(|states|, k requires 0 <= k < |states| => states[k].chunks)
  }

  lemma {:induction false} TableGrows(states: seq<R.State>, steps: seq<R.Step>, i: nat, j: nat)
    requires R.Run(states, steps) && i <= j < |states|
    ensures states[i].chunks <= states[j].chunks
    decreases j
  {
    if i < j {
      TableGrows(states, steps, i, j - 1);
      assert states[j] == R.Next(states[j - 1], steps[j - 1]);
    }
  }

  /** While nobody interferes with anybody's append, every reader is complete. */
  lemma UndisturbedReadersAreComplete(states: seq<R.State>, steps: seq<R.Step>, x: nat, pages: seq<Read>)
    requires R.Run(states, steps) && R.NobodyInterferes(states, steps, x, |steps|)
    requires Reader(TablesOf(states), x, pages) && pages != []
    ensures Complete(TablesOf(states), x, pages)
  {
    var tables := TablesOf(states);
    forall i, j | 0 <= i <= j < |tables| ensures tables[i] <= tables[j] { TableGrows(states, steps, i, j); }
    forall k | 0 <= k < |tables| ensures Numbered(tables[k], x) {
      R.NumberedIffNobodyInterferes(states, steps, x, k);
    }
    ReadersAreComplete(tables, x, pages);
  }

  // ---- a reader that has everything there is ----

  lemma OneRowPage(chunks: seq<Chunk>, x: nat, c: nat)
    requires Numbered(chunks, x) && c < |Of(chunks, x)|
    ensures Answers(chunks, x, c, 1, [Of(chunks, x)[c]])
  {
    var i := RowNumbered(chunks, x, c + 1);
    RowAt(chunks, x, i);
    forall l: nat | InPool(chunks, x, c, l) ensures chunks[i].sequence <= chunks[l].sequence { RowAt(chunks, x, l); }
    assert IsPage(chunks, x, c, 1, [i]) && Rows(chunks, [i]) == [Of(chunks, x)[c]];
  }

  ghost predicate HasFirst(tables: seq<seq<Chunk>>, x: nat, k: nat, pages: seq<Read>, all: seq<Chunk>, c: nat)
    requires c <= |all|
  {
    && Reader(tables, x, pages) && Cursor(pages) == c && Received(pages) == all[..c]
    && (pages != [] ==> pages[|pages| - 1].at == k)
  }

  lemma ReaderGoesOn(tables: seq<seq<Chunk>>, x: nat, front: seq<Read>, next: Read)
    requires Reader(tables, x, front) && AsksOn(tables, x, front, next)
    requires front != [] ==> front[|front| - 1].at <= next.at
    ensures Reader(tables, x, front + [next])
  {
    var pages := front + [next];
    assert pages[..|pages| - 1] == front && pages[|pages| - 1] == next;
  }

  lemma ReadOneMore(tables: seq<seq<Chunk>>, x: nat, k: nat, front: seq<Read>, all: seq<Chunk>, c: nat)
    requires k < |tables| && c < |all| && HasFirst(tables, x, k, front, all, c)
    requires Answers(tables[k], x, c, 1, [all[c]]) && all[c].sequence == c + 1
    ensures HasFirst(tables, x, k, front + [Read(k, 1, [all[c]])], all, c + 1)
  {
    var next := Read(k, 1, [all[c]]);
    OnePageMore(front, next);
    ReaderGoesOn(tables, x, front, next);
    assert all[..c + 1] == all[..c] + [all[c]];
  }

  /** On a contiguously numbered table a reader can get the first `c` chunks, one at a time. */
  lemma {:induction false} ReadUpTo(tables: seq<seq<Chunk>>, x: nat, k: nat, c: nat) returns (pages: seq<Read>)
    requires k < |tables| && Numbered(tables[k], x) && c <= |Of(tables[k], x)|
    ensures HasFirst(tables, x, k, pages, Of(tables[k], x), c)
  {
    if c == 0 {
      pages := [];
    } else {
      var front := ReadUpTo(tables, x, k, c - 1);
      OneRowPage(tables[k], x, c - 1);
      ReadOneMore(tables, x, k, front, Of(tables[k], x), c - 1);
      pages := front + [Read(k, 1, [Of(tables[k], x)[c - 1]])];
    }
  }

  // ---- interference ----

  /** The chunk that step `j` inserts. */
  function Inserted(states: seq<R.State>, steps: seq<R.Step>, x: nat, j: nat): Chunk
    requires R.Run(states, steps) && j < |steps| && R.InsertsInto(states[j], steps[j], x)
  {
    var t := states[j + 1].chunks;
    assert t == R.Next(states[j], steps[j]).chunks;
    t[|t| - 1]
  }

  /** The first append that is interfered with stores a number that is taken. */
  lemma FirstInterferenceRepeats(states: seq<R.State>, steps: seq<R.Step>, x: nat, j: nat)
    requires R.Run(states, steps) && j < |steps| && R.NobodyInterferes(states, steps, x, j)
    requires R.Interfered(states, steps, x, j)
    ensures Inserted(states, steps, x, j).sequence <= MaxSequence(states[j].chunks, x) == |Of(states[j].chunks, x)|
  {
    var i := R.ReadOf(steps, j, steps[j].a);
    R.NumberedIffNobodyInterferes(states, steps, x, j);
    R.PendingIsWhatWasRead(states, steps, j, steps[j].a);
    R.CountGrows(states, steps, x, i, j);
    R.NumberedPrefix(states[i].chunks, states[j].chunks, x);
    MaxIsCount(states[i].chunks, x);
    MaxIsCount(states[j].chunks, x);
  }

  lemma {:induction false} FirstInterference(states: seq<R.State>, steps: seq<R.Step>, x: nat, n: nat) returns (j: nat)
    requires n <= |steps| <= |states| && !R.NobodyInterferes(states, steps, x, n)
    ensures j < n && R.NobodyInterferes(states, steps, x, j) && R.Interfered(states, steps, x, j)
  {
    if R.NobodyInterferes(states, steps, x, n - 1) {
      j := n - 1;
    } else {
      j := FirstInterference(states, steps, x, n - 1);
    }
  }

  /** Nothing comes after a cursor that no number exceeds. */
  lemma NothingAfter(chunks: seq<Chunk>, x: nat, cursor: int)
    requires forall i: nat :: i < |chunks| && chunks[i].nodeRun == x ==> chunks[i].sequence <= cursor
    ensures Answers(chunks, x, cursor, 1, [])
  {
    assert IsPage(chunks, x, cursor, 1, []) && Rows(chunks, []) == [];
  }

  /** A reader that had everything before the first interference is told there is no more. */
  lemma InterferenceFoolsAReader(states: seq<R.State>, steps: seq<R.Step>, x: nat, j: nat) returns (pages: seq<Read>)
    requires R.Run(states, steps) && j < |steps| && R.NobodyInterferes(states, steps, x, j)
    requires R.Interfered(states, steps, x, j)
    ensures pages != [] && Reader(TablesOf(states), x, pages) && !Complete(TablesOf(states), x, pages)
  {
    var tables, before := TablesOf(states), states[j].chunks;
    R.NumberedIffNobodyInterferes(states, steps, x, j);
    FirstInterferenceRepeats(states, steps, x, j);
    var front := ReadUpTo(tables, x, j, |Of(before, x)|);
    R.StepGrows(states[j], steps[j], x);
    var after := states[j + 1].chunks;
    forall i: nat | i < |after| && after[i].nodeRun == x ensures after[i].sequence <= |Of(before, x)| {
      if i < |before| { RowAt(before, x, i); }
    }
    NothingAfter(after, x, |Of(before, x)|);
    var next := Read(j + 1, 1, []);
    OnePageMore(front, next);
    pages := front + [next];
    assert Received(front) == Of(before, x) != Of(after, x);
  }

  ghost predicate AllComplete(states: seq<R.State>, x: nat) {
    forall pages :: pages != [] && Reader(TablesOf(states), x, pages) ==> Complete(TablesOf(states), x, pages)
  }

  /**
   Over any run of appends with read and insert apart, every reader of a node run's chunks is complete
   if and only if no insert into it came between an appender's read and that appender's own insert.
   */
  lemma PagingIsCompleteIffNobodyInterferes(states: seq<R.State>, steps: seq<R.Step>, x: nat)
    requires R.Run(states, steps)
    ensures AllComplete(states, x) <==> R.NobodyInterferes(states, steps, x, |steps|)
  {
    if R.NobodyInterferes(states, steps, x, |steps|) {
      forall pages | pages != [] && Reader(TablesOf(states), x, pages) ensures Complete(TablesOf(states), x, pages) {
        UndisturbedReadersAreComplete(states, steps, x, pages);
      }
    } else {
      var j := FirstInterference(states, steps, x, |steps|);
      var pages := InterferenceFoolsAReader(states, steps, x, j);
    }
  }

  // ---- what is lost stays lost ----

  lemma AnswerIsAfter(chunks: seq<Chunk>, x: nat, cursor: int, limit: int, rows: seq<Chunk>)
    requires Answers(chunks, x, cursor, limit, rows)
    ensures forall r <- rows :: r.sequence > cursor
  {
    var page :| IsPage(chunks, x, cursor, limit, page)
                && (forall i <- page :: i < |chunks|) && rows == Rows(chunks, page);
  }

  /** A reader never goes back: what it receives after its first `r` pages lies beyond its cursor then. */
  lemma {:induction false} ReadersGoOn(tables: seq<seq<Chunk>>, x: nat, pages: seq<Read>, r: nat)
    requires Reader(tables, x, pages) && r <= |pages|
    ensures Cursor(pages[..r]) <= Cursor(pages)
    ensures forall l :: r <= l < |pages| ==> forall row <- pages[l].rows :: row.sequence > Cursor(pages[..r])
    decreases |pages|
  {
    if r < |pages| {
      var front, last := pages[..|pages| - 1], pages[|pages| - 1];
      ReadersGoOn(tables, x, front, r);
      assert front[..r] == pages[..r];
      AnswerIsAfter(tables[last.at], x, Cursor(front), last.limit, last.rows);
    } else {
      assert pages[..r] == pages;
    }
  }

  /** So it never receives a chunk numbered at or below its cursor again. */
  lemma {:induction false} NoMoreOf(tables: seq<seq<Chunk>>, x: nat, pages: seq<Read>, r: nat, c: Chunk)
    requires Reader(tables, x, pages) && r <= |pages| && c.sequence <= Cursor(pages[..r])
    ensures multiset(Received(pages))[c] == multiset(Received(pages[..r]))[c]
    decreases |pages|
  {
    if r < |pages| {
      var front, last := pages[..|pages| - 1], pages[|pages| - 1];
      assert front[..r] == pages[..r];
      NoMoreOf(tables, x, front, r, c);
      ReadersGoOn(tables, x, pages, r);
      assert c !in last.rows;
    } else {
      assert pages[..r] == pages;
    }
  }

  lemma PrefixCounts<T>(part: seq<T>, all: seq<T>, c: T)
    requires part <= all
    ensures multiset(part)[c] <= multiset(all)[c]
  {
    assert all == part + all[|part|..];
  }

  /** What step `j` inserts is there ever after. */
  lemma InsertedStays(states: seq<R.State>, steps: seq<R.Step>, x: nat, j: nat, n: nat)
    requires R.Run(states, steps) && j < n < |states| && R.InsertsInto(states[j], steps[j], x)
    ensures Of(states[j].chunks, x) + [Inserted(states, steps, x, j)] <= Of(states[n].chunks, x)
  {
    R.StepGrows(states[j], steps[j], x);
    TableGrows(states, steps, j + 1, n);
    OfPrefix(states[n].chunks, x, |states[j + 1].chunks|);
    assert states[n].chunks[..|states[j + 1].chunks|] == states[j + 1].chunks;
  }

  /**
   A chunk inserted with a number that is taken is lost to a reader that had everything before: however
   long it goes on, it has the chunk less often than the table.
   */
  lemma RepeatedNumberIsLost(
      states: seq<R.State>, steps: seq<R.Step>, x: nat, j: nat, n: nat, pages: seq<Read>, r: nat)
    requires R.Run(states, steps) && j < n < |states| && R.InsertsInto(states[j], steps[j], x)
    requires Reader(TablesOf(states), x, pages) && r <= |pages|
    requires Received(pages[..r]) == Of(states[j].chunks, x)
    requires Inserted(states, steps, x, j).sequence <= Cursor(pages[..r])
    ensures var c := Inserted(states, steps, x, j);
            multiset(Received(pages))[c] < multiset(Of(states[n].chunks, x))[c]
  {
    var c := Inserted(states, steps, x, j);
    NoMoreOf(TablesOf(states), x, pages, r, c);
    InsertedStays(states, steps, x, j, n);
    PrefixCounts(Of(states[j].chunks, x) + [c], Of(states[n].chunks, x), c);
  }

  /** Every reader that had all the chunks before the first interference has lost that chunk for good. */
  lemma FirstInterferenceIsLost(
      states: seq<R.State>, steps: seq<R.Step>, x: nat, j: nat, n: nat, pages: seq<Read>, r: nat)
    requires R.Run(states, steps) && j < n < |states| && R.NobodyInterferes(states, steps, x, j)
    requires R.Interfered(states, steps, x, j)
    requires Reader(TablesOf(states), x, pages) && r <= |pages|
    requires CaughtUpTo(Of(states[j].chunks, x), pages[..r]) && Received(pages[..r]) == Of(states[j].chunks, x)
    ensures var c := Inserted(states, steps, x, j);
            multiset(Received(pages))[c] < multiset(Of(states[n].chunks, x))[c]
  {
    FirstInterferenceRepeats(states, steps, x, j);
    assert |Received(pages[..r])| == Cursor(pages[..r]);
    RepeatedNumberIsLost(states, steps, x, j, n, pages, r);
  }
}
