/**
 Chunk appends with their two statements apart: the read of the greatest number and the insert of the
 next one (runinator-database/src/operations.rs). Any number of appenders interleave; one that stops
 in between has crashed.
 */
module ChunkRaces {
  import opened NodeRuns
  import opened Chunks

  /** What an appender holds between its two statements. */
  datatype Pending = Pending(nodeRun: nat, sequence: int)

  datatype State = State(chunks: seq<Chunk>, pending: map<nat, Pending>)

  datatype Step =
    | ReadMax(a: nat, nodeRun: nat)
    | InsertAt(a: nat, stream: string, content: string, at: int)
    | AppendInOne(nodeRun: nat, stream: string, content: string, at: int)   // within a transaction

  predicate Enabled(s: State, step: Step) {
    step.InsertAt? ==> step.a in s.pending
  }

  function Next(s: State, step: Step): State
    requires Enabled(s, step)
  {
    match step
    case ReadMax(a, x) => s.(pending := s.pending[a := Pending(x, MaxSequence(s.chunks, x) + 1)])
    case InsertAt(a, stream, content, at) =>
      State(s.chunks + [Chunk(s.pending[a].nodeRun, s.pending[a].sequence, stream, content, at)], s.pending - {a})
    case AppendInOne(x, stream, content, at) => s.(chunks := Append(s.chunks, x, stream, content, at))
  }

  ghost predicate Run(states: seq<State>, steps: seq<Step>) {
    && |states| == |steps| + 1 && states[0] == State([], map[])
    && forall k :: 0 <= k < |steps| ==> Enabled(states[k], steps[k]) && states[k + 1] == Next(states[k], steps[k])
  }

  predicate InsertsInto(s: State, step: Step, x: nat) {
    match step
    case ReadMax(_, _) => false
    case InsertAt(a, _, _, _) => a in s.pending && s.pending[a].nodeRun == x
    case AppendInOne(y, _, _, _) => y == x
  }

  /** The last read of appender `a` before step `j`; -1 when there is none. */
  function ReadOf(steps: seq<Step>, j: nat, a: nat): (i: int)
    requires j <= |steps|
    ensures -1 <= i < j
  {
    if j == 0 then -1
    else if steps[j - 1].ReadMax? && steps[j - 1].a == a then j - 1
    else ReadOf(steps, j - 1, a)
  }

  lemma {:induction false} PendingIsWhatWasRead(states: seq<State>, steps: seq<Step>, j: nat, a: nat)
    requires Run(states, steps) && j < |states| && a in states[j].pending
    ensures var i := ReadOf(steps, j, a);
            && 0 <= i && steps[i].ReadMax?
            && states[j].pending[a] == Pending(steps[i].nodeRun, MaxSequence(states[i].chunks, steps[i].nodeRun) + 1)
    decreases j
  {
    var s := states[j - 1];
    assert states[j] == Next(s, steps[j - 1]);
    if !(steps[j - 1].ReadMax? && steps[j - 1].a == a) { PendingIsWhatWasRead(states, steps, j - 1, a); }
  }

  /** A step adds one chunk to the node run it inserts into and none to any other. */
  lemma StepGrows(s: State, step: Step, x: nat)
    requires Enabled(s, step)
    ensures var t := Next(s, step);
            if InsertsInto(s, step, x) then Of(t.chunks, x) == Of(s.chunks, x) + [t.chunks[|t.chunks| - 1]]
            else Of(t.chunks, x) == Of(s.chunks, x)
  {
    var t := Next(s, step);
    if t.chunks != s.chunks { assert t.chunks[..|s.chunks|] == s.chunks; }
  }

  ghost predicate SomeInsert(states: seq<State>, steps: seq<Step>, x: nat, i: int, j: nat)
    requires -1 <= i && j <= |steps| <= |states|
  {
    exists m :: i < m < j && InsertsInto(states[m], steps[m], x)
  }

  /** After a step that inserts nothing, the count grows exactly by the inserts that follow. */
  lemma {:induction false} CountGrows(states: seq<State>, steps: seq<Step>, x: nat, i: nat, j: nat)
    requires Run(states, steps) && i < j < |states| && !InsertsInto(states[i], steps[i], x)
    ensures Of(states[i].chunks, x) <= Of(states[j].chunks, x)
    ensures |Of(states[i].chunks, x)| < |Of(states[j].chunks, x)| <==> SomeInsert(states, steps, x, i, j)
    decreases j
  {
    StepGrows(states[j - 1], steps[j - 1], x);
    if i < j - 1 {
      CountGrows(states, steps, x, i, j - 1);
    }
  }

  /** Step `j` inserts into `x` a number some other insert into `x` has come after the read of. */
  ghost predicate Interfered(states: seq<State>, steps: seq<Step>, x: nat, j: nat)
    requires j < |steps| <= |states|
  {
    && steps[j].InsertAt? && InsertsInto(states[j], steps[j], x)
    && SomeInsert(states, steps, x, ReadOf(steps, j, steps[j].a), j)
  }

  lemma NumberedPrefix(a: seq<Chunk>, b: seq<Chunk>, x: nat)
    requires Numbered(b, x) && Of(a, x) <= Of(b, x)
    ensures Numbered(a, x)
  {
  }

  lemma NumberedGrows(a: seq<Chunk>, b: seq<Chunk>, x: nat, c: Chunk)
    requires Of(b, x) == Of(a, x) + [c]
    ensures Numbered(b, x) <==> Numbered(a, x) && c.sequence == |Of(a, x)| + 1
  {
    if Numbered(b, x) {
      NumberedPrefix(a, b, x);
      assert Of(b, x)[|Of(a, x)|] == c;
    }
  }

  /** The number an insert stores continues the sequence exactly if nobody interfered. */
  lemma InsertContinuesIff(states: seq<State>, steps: seq<Step>, x: nat, j: nat)
    requires Run(states, steps) && j < |steps| && InsertsInto(states[j], steps[j], x)
    requires Numbered(states[j].chunks, x)
    ensures var t := states[j + 1].chunks;
            && t != [] && (t[|t| - 1].sequence == |Of(states[j].chunks, x)| + 1 <==> !Interfered(states, steps, x, j))
  {
    MaxIsCount(states[j].chunks, x);
    if steps[j].InsertAt? {
      var a := steps[j].a;
      var i := ReadOf(steps, j, a);
      PendingIsWhatWasRead(states, steps, j, a);
      CountGrows(states, steps, x, i, j);
      NumberedPrefix(states[i].chunks, states[j].chunks, x);
      MaxIsCount(states[i].chunks, x);
    }
  }

  lemma StepNumberedIff(states: seq<State>, steps: seq<Step>, x: nat, j: nat)
    requires Run(states, steps) && j < |steps|
    ensures Numbered(states[j + 1].chunks, x) <==> Numbered(states[j].chunks, x) && !Interfered(states, steps, x, j)
  {
    StepGrows(states[j], steps[j], x);
    if InsertsInto(states[j], steps[j], x) {
      var t := states[j + 1].chunks;
      NumberedGrows(states[j].chunks, t, x, t[|t| - 1]);
      if Numbered(states[j].chunks, x) { InsertContinuesIff(states, steps, x, j); }
    }
  }

  ghost predicate NobodyInterferes(states: seq<State>, steps: seq<Step>, x: nat, n: nat)
    requires n <= |steps| <= |states|
  {
    forall j :: 0 <= j < n ==> !Interfered(states, steps, x, j)
  }

  /**
   A node run's chunks are numbered 1, 2, ..., n after any run if and only if no insert into it came
   between an appender's read and that appender's own insert.
   */
  lemma {:induction false} NumberedIffNobodyInterferes(states: seq<State>, steps: seq<Step>, x: nat, n: nat)
    requires Run(states, steps) && n < |states|
    ensures Numbered(states[n].chunks, x) <==> NobodyInterferes(states, steps, x, n)
  {
    if n > 0 {
      NumberedIffNobodyInterferes(states, steps, x, n - 1);
      StepNumberedIff(states, steps, x, n - 1);
      assert NobodyInterferes(states, steps, x, n)
        <==> NobodyInterferes(states, steps, x, n - 1) && !Interfered(states, steps, x, n - 1);
    }
  }

  lemma Extend(states: seq<State>, steps: seq<Step>, step: Step) returns (states': seq<State>, steps': seq<Step>)
    requires Run(states, steps) && Enabled(states[|steps|], step)
    ensures Run(states', steps') && states'[|steps'|] == Next(states[|steps|], step)
  {
    states', steps' := states + [Next(states[|steps|], step)], steps + [step];
  }

  /**
   From every reachable state two appenders can race, and the table is then the one in which a reader
   whose page holds one of the two chunks can no longer get the other (`Chunks.RacingAppendsLoseAChunk`).
   */
  lemma RaceIsReachable(
      states: seq<State>, steps: seq<Step>, x: nat, a: nat, b: nat, first: string, second: string, at: int)
    returns (states': seq<State>, steps': seq<Step>)
    requires Run(states, steps) && a != b
    ensures Run(states', steps')
    ensures states'[|steps'|].chunks == Raced(states[|steps|].chunks, x, first, second, at)
    ensures !Numbered(states'[|steps'|].chunks, x)
  {
    var before := states[|steps|].chunks;
    states', steps' := Extend(states, steps, ReadMax(a, x));
    states', steps' := Extend(states', steps', ReadMax(b, x));
    states', steps' := Extend(states', steps', InsertAt(a, "log", first, at));
    var between := states'[|steps'|].chunks;
    states', steps' := Extend(states', steps', InsertAt(b, "log", second, at));
    var after := states'[|steps'|].chunks;
    assert between[..|before|] == before && after[..|between|] == between;
    assert Of(after, x)[|Of(between, x)|].sequence == Of(after, x)[|Of(before, x)|].sequence;
  }
}
