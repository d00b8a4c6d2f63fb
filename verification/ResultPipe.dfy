/**
 Results end to end: the broker's result channel redelivers until an ack, the consumer applies each
 delivery in a database transaction and acks only what it has dealt with or given up on
 (runinator-engine/src/result_consumer.rs). For a terminal status a second transaction enqueues the
 drive of its node, for a repeated event too (runinator-engine/src/repository/node_runs.rs).
 Consumers may be slow, lose their lease, or crash between any two steps. Giving up writes a dead
 letter, and goes on to the ack even if that write fails (runinator-engine/src/audit.rs).
 */
module ResultPipe {
  import opened Wrappers
  import C = Channel
  import R = ChannelRuns
  import T = ChannelTheorems
  import opened Orchestration
  import opened NodeRuns
  import opened ResultEvents

  datatype Pipe = Pipe(
    sys: R.Sys<ResultEvent>,
    db: NodeDb,
    transactions: seq<Delivery>,   // every apply, repeats included
    half: set<nat>,                // delivery ids applied, whose drive is (or was) to be enqueued
    finished: set<nat>,            // delivery ids a consumer is done with and may ack
    driven: set<nat>,              // accepted messages whose drive has been enqueued
    deadLettered: set<nat>)        // accepted messages with a stored dead letter

  datatype Move =
    | Publish(m: C.Message<ResultEvent>)
    | Receive(now: int, lease: nat, order: seq<nat>)
    | ApplyDelivery(id: nat, now: int)
    | EnqueueDrive(id: nat)
    | GiveUp(id: nat, recorded: bool)
    | Ack(id: nat)
    | Nack(id: nat)

  /** What the consumer that was handed delivery `id` holds. */
  function Carried(p: Pipe, id: nat): ResultEvent
    requires id < |p.sys.origin| && p.sys.origin[id] < |p.sys.log|
  {
    p.sys.log[p.sys.origin[id]].first.body
  }

  /** A terminal status has the node driven on. */
  predicate Drives(e: ResultEvent) {
    e.kind.Status? && IsTerminal(e.kind.status)
  }

  ghost predicate Enabled(p: Pipe, move: Move) {
    match move
    case ApplyDelivery(id, _) => Known(p, id)
    case EnqueueDrive(id) => Known(p, id) && id in p.half
    case GiveUp(id, _) => Known(p, id)
    case Ack(id) => id in p.finished
    case _ => true
  }

  ghost predicate Known(p: Pipe, id: nat) {
    id in p.sys.handed && id < |p.sys.origin| && p.sys.origin[id] < |p.sys.log|
  }

  /** The channel call a move makes, if any. */
  function Call(move: Move): Option<R.Event<ResultEvent>> {
    match move
    case Publish(m) => Some(R.PublishEvent(m))
    case Receive(now, lease, order) => Some(R.ReceiveEvent(now, lease, order, (_: C.Delivery<ResultEvent>) => true))
    case Ack(id) => Some(R.AckEvent(id))
    case Nack(id) => Some(R.NackEvent(id))
    case _ => None
  }

  ghost function Next(p: Pipe, move: Move, hash: ResultEvent -> string): Pipe
    requires Enabled(p, move)
  {
    var call := Call(move);
    if call.Some? then p.(sys := R.Next(p.sys, call.value, hash))
    else
      match move
      case ApplyDelivery(id, now) =>
        p.(db := Apply(p.db, Carried(p, id), now).0,
           transactions := p.transactions + [(Carried(p, id), now)],
           half := if Drives(Carried(p, id)) then p.half + {id} else p.half,
           finished := if Drives(Carried(p, id)) then p.finished else p.finished + {id})
      case EnqueueDrive(id) => p.(finished := p.finished + {id}, driven := p.driven + {p.sys.origin[id]})
      case GiveUp(id, recorded) =>
        p.(finished := p.finished + {id},
           deadLettered := if recorded then p.deadLettered + {p.sys.origin[id]} else p.deadLettered)
      case _ => p
  }

  ghost predicate Run(db0: NodeDb, hash: ResultEvent -> string, states: seq<Pipe>, moves: seq<Move>) {
    && |states| == |moves| + 1
    && states[0] == Pipe(R.Start(C.Deduped), db0, [], {}, {}, {}, {})
    && forall k :: 0 <= k < |moves| ==>
         Enabled(states[k], moves[k]) && states[k + 1] == Next(states[k], moves[k], hash)
  }

  ghost predicate Sound(p: Pipe, db0: NodeDb) {
    && R.Inv(p.sys) && p.sys.chan.policy.Deduped?
    && p.db == Fold(db0, p.transactions)
    && (forall id <- p.finished :: Known(p, id))
    && (forall id <- p.half :: Known(p, id) && Carried(p, id).id in p.db.applied)
    && (forall d <- p.transactions :: exists i :: 0 <= i < |p.sys.log| && p.sys.log[i].first.body == d.0)
  }

  lemma FoldGoesOn(db0: NodeDb, ds: seq<Delivery>, d: Delivery)
    ensures Fold(db0, ds + [d]) == Apply(Fold(db0, ds), d.0, d.1).0
  {
    assert (ds + [d])[..|ds|] == ds;
  }

  lemma ApplyKeeps(p: Pipe, db0: NodeDb, id: nat, now: int, hash: ResultEvent -> string)
    requires Sound(p, db0) && Known(p, id)
    ensures Sound(Next(p, ApplyDelivery(id, now), hash), db0)
  {
    var q := Next(p, ApplyDelivery(id, now), hash);
    FoldGoesOn(db0, p.transactions, (Carried(p, id), now));
    forall d | d in q.transactions ensures exists i :: 0 <= i < |q.sys.log| && q.sys.log[i].first.body == d.0 {
      if d !in p.transactions { assert q.sys.log[p.sys.origin[id]].first.body == d.0; }
    }
  }

  lemma CallKeeps(p: Pipe, db0: NodeDb, move: Move, hash: ResultEvent -> string)
    requires Sound(p, db0) && Enabled(p, move) && Call(move).Some?
    ensures Sound(Next(p, move, hash), db0)
  {
    var e := Call(move).value;
    T.StepMovesFates(p.sys, e, hash);
    T.StepKeepsOrigins(p.sys, e, hash);
    T.StepFences(p.sys, e, hash);
    T.PolicyFixed(p.sys, e, hash);
    R.StepKeeps(p.sys, e, hash);
    TransactionsKnown(p, Next(p, move, hash));
  }

  lemma TransactionsKnown(p: Pipe, q: Pipe)
    requires q.transactions == p.transactions && |p.sys.log| <= |q.sys.log|
    requires forall i :: 0 <= i < |p.sys.log| ==> q.sys.log[i].first == p.sys.log[i].first
    requires forall d <- p.transactions :: exists i :: 0 <= i < |p.sys.log| && p.sys.log[i].first.body == d.0
    ensures forall d <- q.transactions :: exists i :: 0 <= i < |q.sys.log| && q.sys.log[i].first.body == d.0
  {
    forall d | d in q.transactions ensures exists i :: 0 <= i < |q.sys.log| && q.sys.log[i].first.body == d.0 {
      var i :| 0 <= i < |p.sys.log| && p.sys.log[i].first.body == d.0;
      assert q.sys.log[i].first.body == d.0;
    }
  }

  lemma {:induction false} RunIsSound(
      db0: NodeDb, hash: ResultEvent -> string, states: seq<Pipe>, moves: seq<Move>, k: nat)
    requires Run(db0, hash, states, moves) && k < |states|
    ensures Sound(states[k], db0)
  {
    if k > 0 {
      RunIsSound(db0, hash, states, moves, k - 1);
      var p, move := states[k - 1], moves[k - 1];
      match move
      case ApplyDelivery(id, now) => ApplyKeeps(p, db0, id, now, hash);
      case EnqueueDrive(id) =>
      case GiveUp(id, recorded) =>
      case _ => CallKeeps(p, db0, move, hash);
    }
  }
}
