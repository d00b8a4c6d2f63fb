/**
 Over every schedule of the result pipe the tables end up as if every event had been applied once,
 and an event that left the pipe was applied, dead-lettered or given up on.
 */
module EffectivelyOnce {
  import opened Wrappers
  import R = ChannelRuns
  import T = ChannelTheorems
  import N = NodeRuns
  import opened ResultEvents
  import opened ResultPipe

  ghost predicate Accounted(p: Pipe, i: nat)
    requires i < |p.sys.log|
  {
    p.sys.log[i].first.body.id in p.db.applied || i in p.deadLettered
  }

  /** Move `m` gave up on message `i` without getting a dead letter stored. */
  ghost predicate Unrecorded(states: seq<Pipe>, moves: seq<Move>, m: nat, i: nat)
    requires m < |moves| < |states|
  {
    moves[m].GiveUp? && !moves[m].recorded
    && moves[m].id < |states[m].sys.origin| && states[m].sys.origin[moves[m].id] == i
  }

  ghost predicate GivenUp(states: seq<Pipe>, moves: seq<Move>, k: nat, i: nat)
    requires k <= |moves| < |states|
  {
    exists m :: 0 <= m < k && Unrecorded(states, moves, m, i)
  }

  /** What is done with an event and not accounted for was given up on without a dead letter. */
  ghost predicate Explained(states: seq<Pipe>, moves: seq<Move>, k: nat)
    requires k <= |moves| < |states|
  {
    var p := states[k];
    && (forall id <- p.finished ::
          Known(p, id) && (Accounted(p, p.sys.origin[id]) || GivenUp(states, moves, k, p.sys.origin[id])))
    && (forall i :: 0 <= i < |p.sys.log| && !p.sys.log[i].fate.Live? ==>
          Accounted(p, i) || GivenUp(states, moves, k, i))
  }

  /** Nothing a consumer or the channel does loses track of what was accounted for. */
  ghost predicate Ahead(p: Pipe, q: Pipe) {
    && p.sys.origin <= q.sys.origin && |p.sys.log| <= |q.sys.log| && p.sys.handed <= q.sys.handed
    && p.db.applied <= q.db.applied && p.deadLettered <= q.deadLettered
    && forall i :: 0 <= i < |p.sys.log| ==> q.sys.log[i].first == p.sys.log[i].first
  }

  lemma MoveIsAhead(p: Pipe, db0: N.NodeDb, move: Move, hash: N.ResultEvent -> string)
    requires Sound(p, db0) && Enabled(p, move)
    ensures Ahead(p, Next(p, move, hash))
  {
    if Call(move).Some? {
      var e := Call(move).value;
      T.StepMovesFates(p.sys, e, hash);
      T.StepKeepsOrigins(p.sys, e, hash);
      T.StepFences(p.sys, e, hash);
    }
  }

  /** A message leaves the channel only by the ack of a delivery some consumer has finished. */
  lemma DoneMeansFinished(p: Pipe, db0: N.NodeDb, move: Move, hash: N.ResultEvent -> string, i: nat)
    requires Sound(p, db0) && Enabled(p, move) && i < |p.sys.log| && p.sys.log[i].fate.Live?
    requires var q := Next(p, move, hash); i < |q.sys.log| && !q.sys.log[i].fate.Live?
    ensures exists id :: id in p.finished && id < |p.sys.origin| && p.sys.origin[id] == i
  {
    var e := Call(move).value;
    T.StepMovesFates(p.sys, e, hash);
    var id := p.sys.log[i].fate.id;
    assert R.Located(p.sys, i) && p.sys.origin[id] == i && id in p.finished;
  }

  lemma GivenUpGrows(states: seq<Pipe>, moves: seq<Move>, k: nat, i: nat)
    requires k < |moves| < |states|
    ensures GivenUp(states, moves, k + 1, i) <==> GivenUp(states, moves, k, i) || Unrecorded(states, moves, k, i)
  {
    if m :| 0 <= m < k + 1 && Unrecorded(states, moves, m, i) {
      assert m == k || 0 <= m < k;
    }
  }

  /** One finished delivery after one more move. */
  lemma FinishedIsExplained(
      db0: N.NodeDb, hash: N.ResultEvent -> string, states: seq<Pipe>, moves: seq<Move>, k: nat, id: nat)
    requires Run(db0, hash, states, moves) && k < |moves| && Explained(states, moves, k) && Sound(states[k], db0)
    requires id in states[k + 1].finished
    ensures var q := states[k + 1];
            Known(q, id) && (Accounted(q, q.sys.origin[id]) || GivenUp(states, moves, k + 1, q.sys.origin[id]))
  {
    var p, q := states[k], states[k + 1];
    MoveIsAhead(p, db0, moves[k], hash);
    if id in p.finished {
      GivenUpGrows(states, moves, k, p.sys.origin[id]);
    } else {
      assert Known(p, id);
      GivenUpGrows(states, moves, k, p.sys.origin[id]);
    }
  }

  lemma DoneIsExplained(
      db0: N.NodeDb, hash: N.ResultEvent -> string, states: seq<Pipe>, moves: seq<Move>, k: nat, i: nat)
    requires Run(db0, hash, states, moves) && k < |moves| && Explained(states, moves, k) && Sound(states[k], db0)
    requires i < |states[k + 1].sys.log| && !states[k + 1].sys.log[i].fate.Live?
    ensures Accounted(states[k + 1], i) || GivenUp(states, moves, k + 1, i)
  {
    var p, q := states[k], states[k + 1];
    MoveIsAhead(p, db0, moves[k], hash);
    GivenUpGrows(states, moves, k, i);
    if i < |p.sys.log| {
      if p.sys.log[i].fate.Live? {
        DoneMeansFinished(p, db0, moves[k], hash, i);
        var id :| id in p.finished && id < |p.sys.origin| && p.sys.origin[id] == i;
      }
    } else {
      NewIsLive(p, db0, moves[k], hash, i);
    }
  }

  /** A message just accepted is live. */
  lemma NewIsLive(p: Pipe, db0: N.NodeDb, move: Move, hash: N.ResultEvent -> string, i: nat)
    requires Sound(p, db0) && Enabled(p, move)
    requires |p.sys.log| <= i < |Next(p, move, hash).sys.log|
    ensures Next(p, move, hash).sys.log[i].fate.Live?
  {
    var e := Call(move).value;
    T.StepMovesFates(p.sys, e, hash);
  }

  lemma {:induction false} RunIsExplained(
      db0: N.NodeDb, hash: N.ResultEvent -> string, states: seq<Pipe>, moves: seq<Move>, k: nat)
    requires Run(db0, hash, states, moves) && k < |states|
    ensures Explained(states, moves, k)
  {
    if k > 0 {
      RunIsExplained(db0, hash, states, moves, k - 1);
      RunIsSound(db0, hash, states, moves, k - 1);
      var q := states[k];
      forall id | id in q.finished
        ensures Known(q, id) && (Accounted(q, q.sys.origin[id]) || GivenUp(states, moves, k, q.sys.origin[id]))
      {
        FinishedIsExplained(db0, hash, states, moves, k - 1, id);
      }
      forall i | 0 <= i < |q.sys.log| && !q.sys.log[i].fate.Live?
        ensures Accounted(q, i) || GivenUp(states, moves, k, i)
      {
        DoneIsExplained(db0, hash, states, moves, k - 1, i);
      }
    }
  }

  /**
   Effectively once. After every schedule of publishes, receives, lease expiries, applies, give-ups,
   acks and nacks: each accepted event is still queued or in flight, or recorded as applied, or dead-
   lettered, or some give-up on it failed to record; and the node-run, chunk and artifact tables are
   those of applying the first occurrence of each event alone, every one of them an accepted event, with
   exactly the artifacts and chunks these report.
   */
  lemma ResultsAreEffectivelyOnce(
      db0: N.NodeDb, hash: N.ResultEvent -> string, states: seq<Pipe>, moves: seq<Move>, k: nat)
    requires Run(db0, hash, states, moves) && k < |states|
    ensures var p := states[k];
            var once := Firsts(p.transactions, db0.applied);
            && (forall i :: 0 <= i < |p.sys.log| ==>
                  || (p.sys.log[i].fate.Live? && T.Held(p.sys.chan, p.sys.log[i].first.(id := p.sys.log[i].fate.id)))
                  || p.sys.log[i].first.body.id in p.db.applied
                  || i in p.deadLettered
                  || GivenUp(states, moves, k, i))
            && p.db == Fold(db0, once) && NoRepeats(once, db0.applied)
            && p.db.applied == db0.applied + Ids(once)
            && p.db.artifacts == db0.artifacts + Artifacts(once)
            && N.LogsIn(p.db.chunks) == N.LogsIn(db0.chunks) + Logs(once)
            && (forall d <- once :: exists i :: 0 <= i < |p.sys.log| && p.sys.log[i].first.body == d.0)
  {
    RunIsSound(db0, hash, states, moves, k);
    RunIsExplained(db0, hash, states, moves, k);
    var p := states[k];
    var once := Firsts(p.transactions, db0.applied);
    RepeatsChangeNothing(db0, p.transactions);
    FirstsAreDistinct(p.transactions, db0.applied);
    FoldRecordsIds(db0, once);
    ReportsAreStored(db0, once);
    forall i | 0 <= i < |p.sys.log| && p.sys.log[i].fate.Live?
      ensures T.Held(p.sys.chan, p.sys.log[i].first.(id := p.sys.log[i].fate.id))
    {
      LiveIsHeld(p, db0, i);
    }
  }

  lemma LiveIsHeld(p: Pipe, db0: N.NodeDb, i: nat)
    requires Sound(p, db0) && i < |p.sys.log| && p.sys.log[i].fate.Live?
    ensures T.Held(p.sys.chan, p.sys.log[i].first.(id := p.sys.log[i].fate.id))
  {
    assert R.Located(p.sys, i);
    var id := p.sys.log[i].fate.id;
    if id in p.sys.chan.inflight {
      assert R.Carries(p.sys, p.sys.chan.inflight[id].delivery);
    } else {
      var d :| d in p.sys.chan.queue && d.id == id;
      assert R.Carries(p.sys, d);
    }
  }
}
