/**
 Exactly when a result event is lost: which move loses it, and what must, and must not, have happened to
 it before (runinator-engine/src/result_consumer.rs, runinator-engine/src/audit.rs).
 */
module ResultLoss {
  import opened Wrappers
  import C = Channel
  import R = ChannelRuns
  import T = ChannelTheorems
  import N = NodeRuns
  import opened ResultPipe
  import opened EffectivelyOnce

  /** An event that is no longer held, was never applied and left no dead letter. */
  ghost predicate Lost(p: Pipe, i: nat)
    requires i < |p.sys.log|
  {
    !p.sys.log[i].fate.Live? && !Accounted(p, i)
  }

  /** The move is about message `i`. */
  ghost predicate About(p: Pipe, id: nat, i: nat) {
    id < |p.sys.origin| && p.sys.origin[id] == i
  }

  /** The move acks a delivery of message `i` that is in flight. */
  ghost predicate Acks(p: Pipe, move: Move, i: nat) {
    move.Ack? && move.id in p.sys.chan.inflight && About(p, move.id, i)
  }

  lemma AcksStored(p: Pipe, db0: N.NodeDb, move: Move, i: nat)
    requires Sound(p, db0) && Acks(p, move, i)
    ensures i < |p.sys.log|
  {
    assert R.Carries(p.sys, p.sys.chan.inflight[move.id].delivery);
  }

  /** A message leaves the channel by such an ack, and by nothing else. */
  lemma {:induction false} OnlyAcksEnd(p: Pipe, db0: N.NodeDb, move: Move, hash: N.ResultEvent -> string, i: nat)
    requires Sound(p, db0) && Enabled(p, move) && i < |p.sys.log|
    ensures var q := Next(p, move, hash);
            && i < |q.sys.log| && q.sys.log[i].first == p.sys.log[i].first
            && (q.sys.log[i].fate.Live? <==> p.sys.log[i].fate.Live? && !Acks(p, move, i))
  {
    if Call(move).Some? {
      T.StepMovesFates(p.sys, Call(move).value, hash);
      if p.sys.log[i].fate.Live? { assert R.Located(p.sys, i); }
      if Acks(p, move, i) { R.AckKeeps(p.sys, move.id); }
    }
  }

  /**
   A move loses an event if and only if it acks a delivery of it that is in flight, while the event is
   neither applied nor dead-lettered.
   */
  lemma MoveLosesIff(
      db0: N.NodeDb, hash: N.ResultEvent -> string, states: seq<Pipe>, moves: seq<Move>, k: nat, i: nat)
    requires Run(db0, hash, states, moves) && k < |moves| && i < |states[k].sys.log| && !Lost(states[k], i)
    ensures i < |states[k + 1].sys.log|
    ensures Lost(states[k + 1], i) <==> Acks(states[k], moves[k], i) && !Accounted(states[k], i)
  {
    RunIsSound(db0, hash, states, moves, k);
    OnlyAcksEnd(states[k], db0, moves[k], hash, i);
    MoveIsAhead(states[k], db0, moves[k], hash);
  }

  // ---- the whole run ----

  ghost predicate Applies(p: Pipe, move: Move, event: nat) {
    && move.ApplyDelivery? && move.id < |p.sys.origin| && p.sys.origin[move.id] < |p.sys.log|
    && Carried(p, move.id).id == event
  }

  ghost predicate Records(p: Pipe, move: Move, i: nat) {
    move.GiveUp? && move.recorded && About(p, move.id, i)
  }

  ghost predicate Acked(states: seq<Pipe>, moves: seq<Move>, k: nat, i: nat)
    requires k <= |moves| < |states|
  {
    exists m :: 0 <= m < k && Acks(states[m], moves[m], i)
  }

  ghost predicate Applied(states: seq<Pipe>, moves: seq<Move>, k: nat, event: nat)
    requires k <= |moves| < |states|
  {
    exists m :: 0 <= m < k && Applies(states[m], moves[m], event)
  }

  ghost predicate Recorded(states: seq<Pipe>, moves: seq<Move>, k: nat, i: nat)
    requires k <= |moves| < |states|
  {
    exists m :: 0 <= m < k && Records(states[m], moves[m], i)
  }

  lemma AckedGrows(states: seq<Pipe>, moves: seq<Move>, k: nat, i: nat)
    requires k < |moves| < |states|
    ensures Acked(states, moves, k + 1, i) <==> Acked(states, moves, k, i) || Acks(states[k], moves[k], i)
  {
    if m :| 0 <= m < k + 1 && Acks(states[m], moves[m], i) { assert m == k || m < k; }
  }

  lemma AppliedGrows(states: seq<Pipe>, moves: seq<Move>, k: nat, event: nat)
    requires k < |moves| < |states|
    ensures Applied(states, moves, k + 1, event)
            <==> Applied(states, moves, k, event) || Applies(states[k], moves[k], event)
  {
    if m :| 0 <= m < k + 1 && Applies(states[m], moves[m], event) { assert m == k || m < k; }
  }

  lemma RecordedGrows(states: seq<Pipe>, moves: seq<Move>, k: nat, i: nat)
    requires k < |moves| < |states|
    ensures Recorded(states, moves, k + 1, i) <==> Recorded(states, moves, k, i) || Records(states[k], moves[k], i)
  {
    if m :| 0 <= m < k + 1 && Records(states[m], moves[m], i) { assert m == k || m < k; }
  }

  lemma OutStep(
      db0: N.NodeDb, hash: N.ResultEvent -> string, states: seq<Pipe>, moves: seq<Move>, k: nat, i: nat)
    requires Run(db0, hash, states, moves) && k < |moves| && Sound(states[k], db0)
    ensures Acks(states[k], moves[k], i) ==> i < |states[k].sys.log|
    ensures i < |states[k].sys.log| ==>
              && i < |states[k + 1].sys.log|
              && (states[k + 1].sys.log[i].fate.Live?
                  <==> states[k].sys.log[i].fate.Live? && !Acks(states[k], moves[k], i))
    ensures |states[k].sys.log| <= i < |states[k + 1].sys.log| ==> states[k + 1].sys.log[i].fate.Live?
  {
    var p, move := states[k], moves[k];
    if Acks(p, move, i) { AcksStored(p, db0, move, i); }
    if i < |p.sys.log| {
      OnlyAcksEnd(p, db0, move, hash, i);
    } else if i < |states[k + 1].sys.log| {
      NewIsLive(p, db0, move, hash, i);
    }
  }

  lemma {:induction false} OutIffAcked(
      db0: N.NodeDb, hash: N.ResultEvent -> string, states: seq<Pipe>, moves: seq<Move>, k: nat, i: nat)
    requires Run(db0, hash, states, moves) && k < |states|
    ensures i < |states[k].sys.log| ==> (!states[k].sys.log[i].fate.Live? <==> Acked(states, moves, k, i))
    ensures i >= |states[k].sys.log| ==> !Acked(states, moves, k, i)
  {
    if k > 0 {
      OutIffAcked(db0, hash, states, moves, k - 1, i);
      RunIsSound(db0, hash, states, moves, k - 1);
      AckedGrows(states, moves, k - 1, i);
      OutStep(db0, hash, states, moves, k - 1, i);
    }
  }

  lemma {:induction false} AppliedIff(
      db0: N.NodeDb, hash: N.ResultEvent -> string, states: seq<Pipe>, moves: seq<Move>, k: nat, event: nat)
    requires Run(db0, hash, states, moves) && k < |states|
    ensures event in states[k].db.applied <==> event in db0.applied || Applied(states, moves, k, event)
  {
    if k > 0 {
      AppliedIff(db0, hash, states, moves, k - 1, event);
      AppliedGrows(states, moves, k - 1, event);
      assert states[k] == Next(states[k - 1], moves[k - 1], hash);
    }
  }

  lemma {:induction false} RecordedIff(
      db0: N.NodeDb, hash: N.ResultEvent -> string, states: seq<Pipe>, moves: seq<Move>, k: nat, i: nat)
    requires Run(db0, hash, states, moves) && k < |states|
    ensures i in states[k].deadLettered <==> Recorded(states, moves, k, i)
  {
    if k > 0 {
      RecordedIff(db0, hash, states, moves, k - 1, i);
      RecordedGrows(states, moves, k - 1, i);
      assert states[k] == Next(states[k - 1], moves[k - 1], hash);
    }
  }

  /**
   An accepted event is lost if and only if a delivery of it was acked in flight, while no delivery of
   that event was ever applied and no give-up on it ever stored a dead letter.
   */
  lemma LostIffAckedUnaccounted(
      db0: N.NodeDb, hash: N.ResultEvent -> string, states: seq<Pipe>, moves: seq<Move>, k: nat, i: nat)
    requires Run(db0, hash, states, moves) && k < |states| && i < |states[k].sys.log|
    ensures var event := states[k].sys.log[i].first.body.id;
            Lost(states[k], i) <==>
            && Acked(states, moves, k, i)
            && event !in db0.applied && !Applied(states, moves, k, event)
            && !Recorded(states, moves, k, i)
  {
    OutIffAcked(db0, hash, states, moves, k, i);
    AppliedIff(db0, hash, states, moves, k, states[k].sys.log[i].first.body.id);
    RecordedIff(db0, hash, states, moves, k, i);
  }

  /** A consumer acks only what it is done with, so somebody gave the lost event up without a record. */
  lemma LostWasGivenUp(
      db0: N.NodeDb, hash: N.ResultEvent -> string, states: seq<Pipe>, moves: seq<Move>, k: nat, i: nat)
    requires Run(db0, hash, states, moves) && k < |states| && i < |states[k].sys.log| && Lost(states[k], i)
    ensures GivenUp(states, moves, k, i)
  {
    RunIsExplained(db0, hash, states, moves, k);
  }

  // ---- the losing run ----

  const START := Pipe(R.Start(C.Deduped), N.EMPTY_DB, [], {}, {}, {}, {})

  lemma Extend(hash: N.ResultEvent -> string, states: seq<Pipe>, moves: seq<Move>, move: Move)
    returns (states': seq<Pipe>, moves': seq<Move>)
    requires Run(N.EMPTY_DB, hash, states, moves) && Enabled(states[|moves|], move)
    ensures Run(N.EMPTY_DB, hash, states', moves') && moves' == moves + [move]
    ensures states'[|moves'|] == Next(states[|moves|], move, hash)
  {
    states', moves' := states + [Next(states[|moves|], move, hash)], moves + [move];
  }

  /**
   A database outage does it: the apply fails, the dead letter cannot be written either, and the ack
   takes the event out of the channel.
   */
  lemma OutageLosesAnEvent(hash: N.ResultEvent -> string, e: N.ResultEvent, now: int, lease: nat)
    returns (states: seq<Pipe>, moves: seq<Move>)
    ensures Run(N.EMPTY_DB, hash, states, moves)
    ensures 0 < |states[|moves|].sys.log| && Lost(states[|moves|], 0)
  {
    states, moves := [START], [];
    states, moves := Extend(hash, states, moves, Publish(C.Message(e, None, now)));
    assert states[|moves|].sys.chan.queue[0].id == 0;
    states, moves := Extend(hash, states, moves, Receive(now, lease, []));
    states, moves := Extend(hash, states, moves, GiveUp(0, false));
    states, moves := Extend(hash, states, moves, Ack(0));
  }
}
