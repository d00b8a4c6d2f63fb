/**
 The drive that follows a terminal result: a second transaction enqueues the node's ready row, for a
 repeated event too (runinator-engine/src/repository/node_runs.rs), so a crash between the two is made
 good by the redelivery.
 */
module ResultDrives {
  import opened Wrappers
  import C = Channel
  import R = ChannelRuns
  import N = NodeRuns
  import O = Orchestration
  import opened ResultPipe
  import opened EffectivelyOnce
  import L = ResultLoss

  /** The event reports one of the four terminal statuses. */
  predicate Ends(e: N.ResultEvent) {
    e.kind.Status? && e.kind.status in {O.Succeeded, O.Failed, O.TimedOut, O.Canceled}
  }

  ghost predicate GivesUp(p: Pipe, move: Move, i: nat) {
    move.GiveUp? && L.About(p, move.id, i)
  }

  /** Somebody gave message `i` up, recorded or not. */
  ghost predicate GaveUpOn(states: seq<Pipe>, moves: seq<Move>, k: nat, i: nat)
    requires k <= |moves| < |states|
  {
    exists m :: 0 <= m < k && GivesUp(states[m], moves[m], i)
  }

  lemma GaveUpGrows(states: seq<Pipe>, moves: seq<Move>, k: nat, i: nat)
    requires k < |moves| < |states|
    ensures GaveUpOn(states, moves, k + 1, i) <==> GaveUpOn(states, moves, k, i) || GivesUp(states[k], moves[k], i)
  {
    if m :| 0 <= m < k + 1 && GivesUp(states[m], moves[m], i) { assert m == k || m < k; }
  }

  /** Message `i` needs no drive, has had one enqueued, or was given up on. */
  ghost predicate Settled(states: seq<Pipe>, moves: seq<Move>, k: nat, i: nat)
    requires k <= |moves| < |states| && i < |states[k].sys.log|
  {
    Ends(states[k].sys.log[i].first.body) ==> i in states[k].driven || GaveUpOn(states, moves, k, i)
  }

  lemma SettledStays(
      db0: N.NodeDb, hash: N.ResultEvent -> string, states: seq<Pipe>, moves: seq<Move>, k: nat, i: nat)
    requires Run(db0, hash, states, moves) && k < |moves| && Sound(states[k], db0)
    requires i < |states[k].sys.log| && Settled(states, moves, k, i)
    ensures i < |states[k + 1].sys.log| && Settled(states, moves, k + 1, i)
  {
    MoveIsAhead(states[k], db0, moves[k], hash);
    GaveUpGrows(states, moves, k, i);
  }

  /** Every delivery a consumer is done with is of a settled message. */
  ghost predicate DoneIsSettled(states: seq<Pipe>, moves: seq<Move>, k: nat)
    requires k <= |moves| < |states|
  {
    forall id <- states[k].finished :: Known(states[k], id) && Settled(states, moves, k, states[k].sys.origin[id])
  }

  lemma FinishedIsSettled(
      db0: N.NodeDb, hash: N.ResultEvent -> string, states: seq<Pipe>, moves: seq<Move>, k: nat, id: nat)
    requires Run(db0, hash, states, moves) && k < |moves| && Sound(states[k], db0) && DoneIsSettled(states, moves, k)
    requires id in states[k + 1].finished
    ensures Known(states[k + 1], id) && Settled(states, moves, k + 1, states[k + 1].sys.origin[id])
  {
    var p := states[k];
    MoveIsAhead(p, db0, moves[k], hash);
    assert Known(p, id);
    GaveUpGrows(states, moves, k, p.sys.origin[id]);
  }

  lemma {:induction false} RunIsSettled(
      db0: N.NodeDb, hash: N.ResultEvent -> string, states: seq<Pipe>, moves: seq<Move>, k: nat)
    requires Run(db0, hash, states, moves) && k < |states|
    ensures DoneIsSettled(states, moves, k)
  {
    if k > 0 {
      RunIsSettled(db0, hash, states, moves, k - 1);
      RunIsSound(db0, hash, states, moves, k - 1);
      forall id | id in states[k].finished
        ensures Known(states[k], id) && Settled(states, moves, k, states[k].sys.origin[id])
      {
        FinishedIsSettled(db0, hash, states, moves, k - 1, id);
      }
    }
  }

  /** An acked terminal event has had its drive enqueued, or was given up on. */
  lemma {:induction false} AckedIsDrivenOrGivenUp(
      db0: N.NodeDb, hash: N.ResultEvent -> string, states: seq<Pipe>, moves: seq<Move>, k: nat, i: nat)
    requires Run(db0, hash, states, moves) && k < |states| && i < |states[k].sys.log|
    requires !states[k].sys.log[i].fate.Live?
    ensures Settled(states, moves, k, i)
  {
    if k > 0 {
      var p := states[k - 1];
      RunIsSound(db0, hash, states, moves, k - 1);
      RunIsSettled(db0, hash, states, moves, k - 1);
      if i >= |p.sys.log| {
        NewIsLive(p, db0, moves[k - 1], hash, i);
      } else {
        if p.sys.log[i].fate.Live? {
          DoneMeansFinished(p, db0, moves[k - 1], hash, i);
          var id :| id in p.finished && id < |p.sys.origin| && p.sys.origin[id] == i;
        } else {
          AckedIsDrivenOrGivenUp(db0, hash, states, moves, k - 1, i);
        }
        SettledStays(db0, hash, states, moves, k - 1, i);
      }
    }
  }

  /** A drive is enqueued only after its event is recorded as applied. */
  lemma {:induction false} DrivenIsApplied(
      db0: N.NodeDb, hash: N.ResultEvent -> string, states: seq<Pipe>, moves: seq<Move>, k: nat, i: nat)
    requires Run(db0, hash, states, moves) && k < |states| && i in states[k].driven
    ensures i < |states[k].sys.log| && states[k].sys.log[i].first.body.id in states[k].db.applied
  {
    if k > 0 {
      RunIsSound(db0, hash, states, moves, k - 1);
      MoveIsAhead(states[k - 1], db0, moves[k - 1], hash);
      if i in states[k - 1].driven { DrivenIsApplied(db0, hash, states, moves, k - 1, i); }
    }
  }

  // ---- a consumer that gets through ----

  /** The moves of a consumer that nothing interrupts: the apply, the drive of a terminal event, the ack. */
  function Handling(e: N.ResultEvent, id: nat, now: int): seq<Move> {
    if Ends(e) then [ApplyDelivery(id, now), EnqueueDrive(id), Ack(id)] else [ApplyDelivery(id, now), Ack(id)]
  }

  /** The message is out of the channel, its event applied, and driven on if it was to be. */
  ghost predicate Handled(p: Pipe, i: nat) {
    && i < |p.sys.log| && p.sys.log[i].fate.Acked?
    && p.sys.log[i].first.body.id in p.db.applied
    && (Ends(p.sys.log[i].first.body) ==> i in p.driven)
  }

  lemma AckHandles(p: Pipe, db0: N.NodeDb, hash: N.ResultEvent -> string, id: nat)
    requires Sound(p, db0) && id in p.sys.chan.inflight && id in p.finished
    requires Known(p, id) && Carried(p, id).id in p.db.applied
    requires Ends(Carried(p, id)) ==> p.sys.origin[id] in p.driven
    ensures Handled(Next(p, Ack(id), hash), p.sys.origin[id])
  {
    assert R.Carries(p.sys, p.sys.chan.inflight[id].delivery);
  }

  lemma DriveHandles(p: Pipe, db0: N.NodeDb, hash: N.ResultEvent -> string, id: nat)
    requires Sound(p, db0) && Enabled(p, EnqueueDrive(id)) && id in p.sys.chan.inflight
    ensures var q := Next(p, EnqueueDrive(id), hash);
            Enabled(q, Ack(id)) && Handled(Next(q, Ack(id), hash), p.sys.origin[id])
  {
    var q := Next(p, EnqueueDrive(id), hash);
    assert forall d <- q.half :: Known(q, d) && Carried(q, d) == Carried(p, d);
    AckHandles(q, db0, hash, id);
  }

  /** From any reachable state a consumer that holds a delivery can handle it to the end. */
  lemma HandlingEnds(p: Pipe, db0: N.NodeDb, hash: N.ResultEvent -> string, id: nat, now: int)
    requires Sound(p, db0) && Known(p, id) && id in p.sys.chan.inflight
    ensures var moves, applied := Handling(Carried(p, id), id, now), Next(p, ApplyDelivery(id, now), hash);
            && Enabled(p, moves[0]) && Enabled(applied, moves[1])
            && var next := Next(applied, moves[1], hash);
               if Ends(Carried(p, id)) then
                 Enabled(next, moves[2]) && Handled(Next(next, moves[2], hash), p.sys.origin[id])
               else
                 Handled(next, p.sys.origin[id])
  {
    var applied := Next(p, ApplyDelivery(id, now), hash);
    ApplyKeeps(p, db0, id, now, hash);
    if Ends(Carried(p, id)) {
      DriveHandles(applied, db0, hash, id);
    } else {
      AckHandles(applied, db0, hash, id);
    }
  }

  /** A consumer may also give up any delivery it was handed, and then ack it; the record is kept if it was written. */
  lemma GivingUpEnds(p: Pipe, db0: N.NodeDb, hash: N.ResultEvent -> string, id: nat, recorded: bool)
    requires Sound(p, db0) && Known(p, id) && id in p.sys.chan.inflight
    ensures var q := Next(p, GiveUp(id, recorded), hash);
            && Enabled(p, GiveUp(id, recorded)) && Enabled(q, Ack(id))
            && q.db == p.db && q.driven == p.driven
            && q.deadLettered == p.deadLettered + (if recorded then {p.sys.origin[id]} else {})
            && Next(q, Ack(id), hash).sys.log[p.sys.origin[id]].fate.Acked?
  {
    assert R.Carries(p.sys, p.sys.chan.inflight[id].delivery);
  }

  // ---- events that are never driven ----

  /** A terminal event has left the channel and nobody has enqueued its drive. */
  ghost predicate Undriven(p: Pipe, i: nat)
    requires i < |p.sys.log|
  {
    Ends(p.sys.log[i].first.body) && !p.sys.log[i].fate.Live? && i !in p.driven
  }

  ghost predicate DrivesOn(p: Pipe, move: Move, i: nat) {
    move.EnqueueDrive? && L.About(p, move.id, i)
  }

  ghost predicate DroveOn(states: seq<Pipe>, moves: seq<Move>, k: nat, i: nat)
    requires k <= |moves| < |states|
  {
    exists m :: 0 <= m < k && DrivesOn(states[m], moves[m], i)
  }

  lemma {:induction false} DrivenIff(
      db0: N.NodeDb, hash: N.ResultEvent -> string, states: seq<Pipe>, moves: seq<Move>, k: nat, i: nat)
    requires Run(db0, hash, states, moves) && k < |states|
    ensures i in states[k].driven <==> DroveOn(states, moves, k, i)
  {
    if k > 0 {
      DrivenIff(db0, hash, states, moves, k - 1, i);
      var last := k - 1;
      assert states[k] == Next(states[last], moves[last], hash);
      if m :| 0 <= m < k && DrivesOn(states[m], moves[m], i) { assert m == last || m < last; }
    }
  }

  /** A move leaves an event undriven if and only if it acks a delivery in flight of a terminal one not driven yet. */
  lemma MoveLeavesUndrivenIff(
      db0: N.NodeDb, hash: N.ResultEvent -> string, states: seq<Pipe>, moves: seq<Move>, k: nat, i: nat)
    requires Run(db0, hash, states, moves) && k < |moves| && i < |states[k].sys.log| && !Undriven(states[k], i)
    ensures i < |states[k + 1].sys.log|
    ensures Undriven(states[k + 1], i) <==>
            Ends(states[k].sys.log[i].first.body) && L.Acks(states[k], moves[k], i) && i !in states[k].driven
  {
    RunIsSound(db0, hash, states, moves, k);
    L.OnlyAcksEnd(states[k], db0, moves[k], hash, i);
  }

  /** Over a whole run: acked in flight, and no delivery of it was ever driven on. */
  lemma UndrivenIffAcked(
      db0: N.NodeDb, hash: N.ResultEvent -> string, states: seq<Pipe>, moves: seq<Move>, k: nat, i: nat)
    requires Run(db0, hash, states, moves) && k < |states| && i < |states[k].sys.log|
    ensures Undriven(states[k], i) <==>
            && Ends(states[k].sys.log[i].first.body)
            && L.Acked(states, moves, k, i) && !DroveOn(states, moves, k, i)
  {
    L.OutIffAcked(db0, hash, states, moves, k, i);
    DrivenIff(db0, hash, states, moves, k, i);
  }

  /**
   The give-up is no idle case: the event is applied, its drive cannot be enqueued, and the recorded
   give-up acks it. The node run has ended and nothing drives its run on.
   */
  lemma GiveUpStrandsARun(hash: N.ResultEvent -> string, now: int, lease: nat)
    returns (states: seq<Pipe>, moves: seq<Move>)
    ensures Run(N.EMPTY_DB, hash, states, moves)
    ensures var p := states[|moves|];
            |p.sys.log| == 1 && Undriven(p, 0) && Accounted(p, 0) && 0 in p.deadLettered
  {
    var e := N.ResultEvent(0, 0, 0, N.Status(O.Succeeded, None, None), now);
    states, moves := [L.START], [];
    states, moves := L.Extend(hash, states, moves, Publish(C.Message(e, None, now)));
    assert states[|moves|].sys.chan.queue[0].id == 0;
    states, moves := L.Extend(hash, states, moves, Receive(now, lease, []));
    states, moves := L.Extend(hash, states, moves, ApplyDelivery(0, now));
    states, moves := L.Extend(hash, states, moves, GiveUp(0, true));
    states, moves := L.Extend(hash, states, moves, Ack(0));
  }
}
