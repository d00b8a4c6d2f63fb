/**
 Redelivery and reordering of result events: applying a delivery sequence with repeats equals
 applying its first occurrences, and the order of the events does not decide how a node run ends.
 */
module ResultEvents {
  import opened Wrappers
  import opened Orchestration
  import opened NodeRuns

  /** A delivered event and the time its transaction runs. */
  type Delivery = (ResultEvent, int)

  function Fold(db: NodeDb, ds: seq<Delivery>): NodeDb {
    if ds == [] then db
    else
      var last := ds[|ds| - 1];
      Apply(Fold(db, ds[..|ds| - 1]), last.0, last.1).0
  }

  function Ids(ds: seq<Delivery>): set<nat> {
    set d | d in ds :: d.0.id
  }

  /** The deliveries whose event id is neither in `seen` nor delivered earlier. */
  function Firsts(ds: seq<Delivery>, seen: set<nat>): seq<Delivery> {
    if ds == [] then []
    else
      var before, last := ds[..|ds| - 1], ds[|ds| - 1];
      Firsts(before, seen) + if last.0.id in seen || last.0.id in Ids(before) then [] else [last]
  }

  lemma {:induction false} FoldRecordsIds(db: NodeDb, ds: seq<Delivery>)
    ensures Fold(db, ds).applied == db.applied + Ids(ds)
  {
    if ds != [] {
      FoldRecordsIds(db, ds[..|ds| - 1]);
      assert ds == ds[..|ds| - 1] + [ds[|ds| - 1]];
      assert Ids(ds) == Ids(ds[..|ds| - 1]) + {ds[|ds| - 1].0.id};
    }
  }

  /** The artifacts and the chunks, without their numbers, that these deliveries report. */
  function Artifacts(ds: seq<Delivery>): seq<Artifact> {
    if ds == [] then []
    else
      var e := ds[|ds| - 1].0;
      Artifacts(ds[..|ds| - 1])
      + if e.kind.NewArtifact? then [Artifact(e.nodeRun, e.kind.name, e.kind.uri, e.timestamp)] else []
  }

  function Logs(ds: seq<Delivery>): seq<Log> {
    if ds == [] then []
    else
      var e := ds[|ds| - 1].0;
      Logs(ds[..|ds| - 1])
      + if e.kind.NewChunk? then [Log(e.nodeRun, e.kind.stream, e.kind.content, e.timestamp)] else []
  }

  lemma OneMoreReport(db: NodeDb, d: Delivery)
    requires d.0.id !in db.applied
    ensures var t := Apply(db, d.0, d.1).0;
            && t.artifacts == db.artifacts
                 + (if d.0.kind.NewArtifact?
                    then [Artifact(d.0.nodeRun, d.0.kind.name, d.0.kind.uri, d.0.timestamp)] else [])
            && LogsIn(t.chunks) == LogsIn(db.chunks)
                 + (if d.0.kind.NewChunk?
                    then [Log(d.0.nodeRun, d.0.kind.stream, d.0.kind.content, d.0.timestamp)] else [])
  {
    var t := Apply(db, d.0, d.1).0;
    assert LogsIn(t.chunks)[..|db.chunks|] == LogsIn(db.chunks);
  }

  /** New events store exactly what they report, in order. */
  lemma {:induction false} ReportsAreStored(db: NodeDb, ds: seq<Delivery>)
    requires NoRepeats(ds, db.applied)
    ensures Fold(db, ds).artifacts == db.artifacts + Artifacts(ds)
    ensures LogsIn(Fold(db, ds).chunks) == LogsIn(db.chunks) + Logs(ds)
  {
    if ds != [] {
      var before, last := ds[..|ds| - 1], ds[|ds| - 1];
      ReportsAreStored(db, before);
      FoldRecordsIds(db, before);
      assert last.0.id !in Ids(before);
      OneMoreReport(Fold(db, before), last);
    }
  }

  /** Redeliveries change nothing: the tables depend on the first occurrences alone. */
  lemma {:induction false} RepeatsChangeNothing(db: NodeDb, ds: seq<Delivery>)
    ensures Fold(db, ds) == Fold(db, Firsts(ds, db.applied))
  {
    if ds != [] {
      var before, last := ds[..|ds| - 1], ds[|ds| - 1];
      RepeatsChangeNothing(db, before);
      FoldRecordsIds(db, before);
      var firsts := Firsts(ds, db.applied);
      if last.0.id in db.applied || last.0.id in Ids(before) {
        assert firsts == Firsts(before, db.applied);
      } else {
        assert firsts[..|firsts| - 1] == Firsts(before, db.applied);
      }
    }
  }

  ghost predicate NoRepeats(ds: seq<Delivery>, seen: set<nat>) {
    && (forall i :: 0 <= i < |ds| ==> ds[i].0.id !in seen)
    && forall i, j :: 0 <= i < j < |ds| ==> ds[i].0.id != ds[j].0.id
  }

  /** `Firsts` keeps each event once, and no event is lost. */
  lemma {:induction false} FirstsAreDistinct(ds: seq<Delivery>, seen: set<nat>)
    ensures NoRepeats(Firsts(ds, seen), seen)
    ensures Ids(Firsts(ds, seen)) == Ids(ds) - seen
    ensures forall d <- Firsts(ds, seen) :: d in ds
  {
    if ds != [] {
      var before, last := ds[..|ds| - 1], ds[|ds| - 1];
      FirstsAreDistinct(before, seen);
      assert ds == before + [last];
      assert Ids(ds) == Ids(before) + {last.0.id};
      var firsts := Firsts(before, seen);
      assert forall i :: 0 <= i < |firsts| ==> firsts[i].0.id in Ids(firsts);
      assert Ids(firsts + [last]) == Ids(firsts) + {last.0.id};
      assert firsts + [] == firsts;
    }
  }

  // ---- one node run ----

  /** Events alone never take a node run out of a terminal status. */
  lemma {:induction false} TerminalIsKept(db: NodeDb, ds: seq<Delivery>, x: nat)
    requires x in db.nodeRuns && IsTerminal(db.nodeRuns[x].status)
    ensures x in Fold(db, ds).nodeRuns && IsTerminal(Fold(db, ds).nodeRuns[x].status)
  {
    if ds != [] { TerminalIsKept(db, ds[..|ds| - 1], x); }
  }

  /** A status event of an attempt the row has moved past changes no node run at all. */
  lemma SupersededIsDiscarded(db: NodeDb, e: ResultEvent, now: int)
    requires e.kind.Status? && e.nodeRun in db.nodeRuns
    requires 0 < e.attempt < db.nodeRuns[e.nodeRun].attempt
    ensures Apply(db, e, now).0.nodeRuns == db.nodeRuns
  {
  }

  /** A status event of node run `x` whose attempt is not superseded there. */
  ghost predicate Current(db: NodeDb, d: Delivery, x: nat) {
    && x in db.nodeRuns && d.0.nodeRun == x && d.0.kind.Status?
    && (d.0.attempt <= 0 || db.nodeRuns[x].attempt <= d.0.attempt)
  }

  predicate Ends(d: Delivery, x: nat) {
    d.0.nodeRun == x && d.0.kind.Status? && IsTerminal(d.0.kind.status)
  }

  /** The latest terminal event of node run `x`, as its index; the length when there is none. */
  function LastEnd(ds: seq<Delivery>, x: nat): (i: nat)
    ensures i <= |ds|
    ensures i < |ds| ==> Ends(ds[i], x) && forall j :: i < j < |ds| ==> !Ends(ds[j], x)
    ensures i == |ds| ==> forall j :: 0 <= j < |ds| ==> !Ends(ds[j], x)
  {
    if ds == [] then 0
    else if Ends(ds[|ds| - 1], x) then |ds| - 1
    else
      var i := LastEnd(ds[..|ds| - 1], x);
      if i == |ds| - 1 then |ds| else i
  }

  /** Every status event of `x` among the deliveries belongs to an attempt that still counts. */
  ghost predicate AllCurrent(db: NodeDb, ds: seq<Delivery>, x: nat) {
    && x in db.nodeRuns
    && forall d <- ds :: d.0.nodeRun == x && d.0.kind.Status? ==> Current(db, d, x)
  }

  /** Node run `x` of `db` ended as terminal event `d` reports. */
  ghost predicate EndedBy(db: NodeDb, x: nat, d: Delivery)
    requires d.0.kind.Status?
  {
    && x in db.nodeRuns
    && db.nodeRuns[x].status == d.0.kind.status && db.nodeRuns[x].finishedAt == Some(d.1)
    && (d.0.kind.output.Some? ==> db.nodeRuns[x].output == d.0.kind.output)
    && (d.0.kind.message.Some? ==> db.nodeRuns[x].message == d.0.kind.message)
  }

  /** One more delivery of an event not applied before. */
  lemma OneMoreEvent(db: NodeDb, d: Delivery, x: nat)
    requires d.0.id !in db.applied && x in db.nodeRuns
    requires d.0.nodeRun == x && d.0.kind.Status? ==> Current(db, d, x)
    ensures var t := Apply(db, d.0, d.1).0;
            && x in t.nodeRuns && t.nodeRuns[x].attempt == db.nodeRuns[x].attempt
            && (Ends(d, x) ==> EndedBy(t, x, d))
  {
  }

  /** A delivery that is no terminal event leaves the end of a finished node run as it was. */
  lemma EndIsKept(db: NodeDb, d: Delivery, x: nat, end: Delivery)
    requires Ends(end, x) && EndedBy(db, x, end) && !Ends(d, x)
    ensures EndedBy(Apply(db, d.0, d.1).0, x, end)
  {
  }

  /**
   The last terminal event decides the final status, its output and message when it has them, and
   the finish time, whatever else is delivered around it.
   */
  lemma {:induction false} LastEndDecides(db: NodeDb, ds: seq<Delivery>, x: nat)
    requires AllCurrent(db, ds, x) && NoRepeats(ds, db.applied)
    ensures x in Fold(db, ds).nodeRuns && Fold(db, ds).nodeRuns[x].attempt == db.nodeRuns[x].attempt
    ensures LastEnd(ds, x) < |ds| ==> EndedBy(Fold(db, ds), x, ds[LastEnd(ds, x)])
  {
    if ds != [] {
      var before, last := ds[..|ds| - 1], ds[|ds| - 1];
      assert last in ds;
      forall d <- before ensures d in ds {}
      LastEndDecides(db, before, x);
      FoldRecordsIds(db, before);
      assert last.0.id !in Ids(before);
      OneMoreEvent(Fold(db, before), last, x);
      var i := LastEnd(before, x);
      if !Ends(last, x) && i < |before| { EndIsKept(Fold(db, before), last, x, before[i]); }
    }
  }

  lemma SameElements(ds: seq<Delivery>, ds': seq<Delivery>, d: Delivery)
    requires multiset(ds) == multiset(ds')
    ensures d in ds <==> d in ds'
  {
    assert d in ds <==> d in multiset(ds);
    assert d in ds' <==> d in multiset(ds');
  }

  /** A reordering repeats no event either. */
  lemma ReorderingKeepsDistinct(ds: seq<Delivery>, ds': seq<Delivery>, seen: set<nat>)
    requires NoRepeats(ds, seen) && multiset(ds) == multiset(ds')
    ensures NoRepeats(ds', seen)
  {
    forall i | 0 <= i < |ds'| ensures ds'[i].0.id !in seen {
      SameElements(ds, ds', ds'[i]);
    }
    forall i, j | 0 <= i < j < |ds'| ensures ds'[i].0.id != ds'[j].0.id {
      SameElements(ds, ds', ds'[i]);
      SameElements(ds, ds', ds'[j]);
      if ds'[i] == ds'[j] {
        Twice(ds', i, j);
        OnlyOnce(ds, ds'[i], seen);
      }
    }
  }

  lemma Twice(ds: seq<Delivery>, i: nat, j: nat)
    requires i < j < |ds| && ds[i] == ds[j]
    ensures multiset(ds)[ds[i]] >= 2
  {
    assert ds == ds[..j] + [ds[j]] + ds[j + 1..];
    assert ds[i] in ds[..j];
  }

  lemma {:induction false} OnlyOnce(ds: seq<Delivery>, d: Delivery, seen: set<nat>)
    requires NoRepeats(ds, seen)
    ensures multiset(ds)[d] <= 1
  {
    if ds != [] {
      var before, last := ds[..|ds| - 1], ds[|ds| - 1];
      OnlyOnce(before, d, seen);
      assert ds == before + [last];
      if d == last { assert d !in before; }
    }
  }

  /**
   With exactly one terminal event every order of the deliveries ends the node run the same way:
   with that event's status and finish time, and with its output and message when it has them.
   */
  lemma OneEndDecidesEveryOrder(db: NodeDb, ds: seq<Delivery>, ds': seq<Delivery>, x: nat, i: nat)
    requires AllCurrent(db, ds, x) && NoRepeats(ds, db.applied) && multiset(ds) == multiset(ds')
    requires i < |ds| && Ends(ds[i], x) && forall j :: 0 <= j < |ds| && Ends(ds[j], x) ==> j == i
    ensures EndedBy(Fold(db, ds), x, ds[i]) && EndedBy(Fold(db, ds'), x, ds[i])
  {
    ReorderingKeepsDistinct(ds, ds', db.applied);
    forall d | d in ds' ensures d in ds { SameElements(ds, ds', d); }
    LastEndDecides(db, ds, x);
    LastEndDecides(db, ds', x);
    SameElements(ds, ds', ds[i]);
    var k := LastEnd(ds', x);
    assert ds[i] in ds';
    assert ds'[k] in ds';
  }

  /** The status deliveries leave node run `x` with. */
  ghost function Final(db: NodeDb, ds: seq<Delivery>, x: nat): WorkflowStatus
    requires x in Fold(db, ds).nodeRuns
  {
    Fold(db, ds).nodeRuns[x].status
  }

  ghost predicate EveryOrderAgrees(db: NodeDb, ds: seq<Delivery>, x: nat) {
    forall ds' :: multiset(ds') == multiset(ds) ==>
      && x in Fold(db, ds).nodeRuns && x in Fold(db, ds').nodeRuns
      && Final(db, ds', x) == Final(db, ds, x)
  }

  /** Moving one delivery to the end. */
  function MoveToEnd(ds: seq<Delivery>, i: nat): seq<Delivery>
    requires i < |ds|
  {
    ds[..i] + ds[i + 1..] + [ds[i]]
  }

  lemma MoveIsReordering(ds: seq<Delivery>, i: nat)
    requires i < |ds|
    ensures multiset(MoveToEnd(ds, i)) == multiset(ds)
  {
    assert ds == ds[..i] + [ds[i]] + ds[i + 1..];
  }

  /** A reordering ends by its own last terminal event, which is one of the original ones. */
  lemma ReorderedEnd(db: NodeDb, ds: seq<Delivery>, ds': seq<Delivery>, x: nat)
    requires AllCurrent(db, ds, x) && NoRepeats(ds, db.applied) && LastEnd(ds, x) < |ds|
    requires multiset(ds') == multiset(ds)
    ensures x in Fold(db, ds').nodeRuns
    ensures var k := LastEnd(ds', x); k < |ds'| && ds'[k] in ds && Final(db, ds', x) == ds'[k].0.kind.status
  {
    ReorderingKeepsDistinct(ds, ds', db.applied);
    forall e | e in ds' ensures e in ds { SameElements(ds, ds', e); }
    LastEndDecides(db, ds', x);
    var end := ds[LastEnd(ds, x)];
    SameElements(ds, ds', end);
    assert end in ds';
  }

  ghost predicate EndsAgree(ds: seq<Delivery>, x: nat) {
    forall d <- ds, e <- ds :: Ends(d, x) && Ends(e, x) ==> d.0.kind.status == e.0.kind.status
  }

  /**
   Once some terminal event is among the deliveries, their order is irrelevant to the final status
   if and only if all the terminal events report the same status.
   */
  lemma OrderIrrelevantIffEndsAgree(db: NodeDb, ds: seq<Delivery>, x: nat)
    requires AllCurrent(db, ds, x) && NoRepeats(ds, db.applied) && LastEnd(ds, x) < |ds|
    ensures EveryOrderAgrees(db, ds, x) <==> EndsAgree(ds, x)
  {
    ReorderedEnd(db, ds, ds, x);
    if EveryOrderAgrees(db, ds, x) {
      forall d | d in ds && Ends(d, x) ensures d.0.kind.status == Final(db, ds, x) {
        var i :| 0 <= i < |ds| && ds[i] == d;
        var moved := MoveToEnd(ds, i);
        MoveIsReordering(ds, i);
        ReorderedEnd(db, ds, moved, x);
        assert Ends(moved[|moved| - 1], x);
      }
    }
    if EndsAgree(ds, x) {
      forall ds' | multiset(ds') == multiset(ds)
        ensures x in Fold(db, ds').nodeRuns && Final(db, ds', x) == Final(db, ds, x)
      {
        ReorderedEnd(db, ds, ds', x);
      }
    }
  }
}
