/**
 The queues of the two wakeup protocols are the channels' own: beside every run of the protocol, its
 pushes, settlements and locked passes as calls of the leased channel (runinator-broker/src/in_memory.rs)
 keep the same deliveries queued, in the same order, and the same ones in flight.
 */
module WakeupChannel {
  import opened Wrappers
  import opened Targeting
  import C = Channel
  import R = ChannelRuns
  import W = Wakeup
  import One = WakeupOne

  /** The same ids in the same places, each with the target of its body. */
  ghost predicate ShowsQueue<M>(items: seq<W.Item>, queue: seq<C.Delivery<M>>, target: M -> ActionTarget) {
    && |items| == |queue|
    && forall i :: 0 <= i < |queue| ==> items[i].id == queue[i].id && items[i].target == target(queue[i].body)
  }

  ghost predicate ShowsFlight<M>(
      targets: map<nat, ActionTarget>, inflight: map<nat, C.Leased<M>>, target: M -> ActionTarget)
  {
    targets.Keys == inflight.Keys && forall id <- inflight :: targets[id] == target(inflight[id].delivery.body)
  }

  ghost predicate Shows<M>(s: W.State, c: C.Chan<M>, target: M -> ActionTarget) {
    s.nextId == c.nextId && ShowsQueue(s.queue, c.queue, target) && ShowsFlight(s.inflight, c.inflight, target)
  }

  ghost function StaleIds<M>(c: C.Chan<M>, now: int): set<nat> {
    if c.policy.Expiring? then set d | d in c.queue && C.Stale(d.enqueuedAt, now) :: d.id else {}
  }

  /** The channel call a step of the protocol makes; registering, blocking and notifying make none. */
  ghost predicate Makes<M>(
      s: W.State, step: W.Step, c: C.Chan<M>, call: Option<R.Event<M>>, target: M -> ActionTarget, hash: M -> string)
  {
    match step
    case Push(t) =>
      call.Some? && call.value.PublishEvent? && target(call.value.m.body) == t && C.Accepts(c, call.value.m, hash)
    case Requeue(id) => call == Some(R.NackEvent(id))
    case Ack(id) => call == Some(R.AckEvent(id))
    case Scan(d, expired, stale) =>
      && d in s.waiters && call.Some? && call.value.ReceiveEvent?
      && C.ExpiredOrder(c, call.value.now, expired) && call.value.order == expired
      && stale == StaleIds(C.Reclaim(c, expired), call.value.now)
      && call.value.matches == Asked(s.waiters[d].accepts, target)
    case _ => call.None?
  }

  /** `receive_control` takes anything, the others what the profile matches. */
  function Asked<M>(accepts: Option<ConsumerProfile>, target: M -> ActionTarget): C.Delivery<M> -> bool {
    (d: C.Delivery<M>) => accepts.None? || Matches(target(d.body), accepts.value)
  }

  ghost function After<M>(sys: R.Sys<M>, call: Option<R.Event<M>>, hash: M -> string): R.Sys<M> {
    if call.None? then sys else R.Next(sys, call.value, hash)
  }

  // ---- one step ----

  lemma {:induction false} ReclaimShows<M>(s: W.State, c: C.Chan<M>, order: seq<nat>, target: M -> ActionTarget)
    requires Shows(s, c, target)
    ensures Shows(W.Reclaim(s, order), C.Reclaim(c, order), target)
    ensures C.Reclaim(c, order).policy == c.policy
    decreases |order|
  {
    if order != [] {
      var id, rest := order[0], order[1..];
      if id in c.inflight {
        ReclaimShows(
          s.(queue := [W.Item(s.nextId, s.inflight[id], W.Reclaimed)] + s.queue, inflight := s.inflight - {id},
             nextId := s.nextId + 1),
          C.Requeue(c, id), rest, target);
      } else {
        ReclaimShows(s, c, rest, target);
      }
    }
  }

  lemma {:induction false} KeepShows<M>(
      items: seq<W.Item>, queue: seq<C.Delivery<M>>, stale: set<nat>, now: int, target: M -> ActionTarget)
    requires ShowsQueue(items, queue, target)
    requires forall d <- queue :: d.id in stale <==> C.Stale(d.enqueuedAt, now)
    ensures ShowsQueue(W.Keep(items, stale), C.Retained(queue, now), target)
  {
    if queue != [] {
      assert forall d <- queue[1..] :: d in queue;
      KeepShows(items[1..], queue[1..], stale, now, target);
    }
  }

  lemma {:induction false} KeepNothingStale(items: seq<W.Item>)
    ensures W.Keep(items, {}) == items
  {
    if items != [] { KeepNothingStale(items[1..]); }
  }

  /** Dropping what is stale by id is dropping it by age, since no two queued deliveries share an id. */
  lemma DropShows<M>(s: W.State, c: C.Chan<M>, now: int, target: M -> ActionTarget)
    requires Shows(s, c, target) && R.Distinct(c.queue)
    ensures ShowsQueue(W.Keep(s.queue, StaleIds(c, now)), C.DropStale(c, now).queue, target)
  {
    if c.policy.Expiring? {
      KeepShows(s.queue, c.queue, StaleIds(c, now), now, target);
    } else {
      KeepNothingStale(s.queue);
    }
  }

  lemma {:induction false} FirstShows<M>(
      w: W.Waiter, items: seq<W.Item>, queue: seq<C.Delivery<M>>, target: M -> ActionTarget)
    requires ShowsQueue(items, queue, target)
    ensures W.FirstWanted(w, items) == C.Position(queue, Asked(w.accepts, target))
  {
    if queue != [] {
      assert W.Wants(w, items[0]) <==> Asked(w.accepts, target)(queue[0]);
      FirstShows(w, items[1..], queue[1..], target);
    }
  }

  lemma TakeShows<M>(s: W.State, c: C.Chan<M>, p: nat, until: int, target: M -> ActionTarget)
    requires Shows(s, c, target) && p < |c.queue|
    ensures Shows(s.(queue := s.queue[..p] + s.queue[p + 1..],
                     inflight := s.inflight[s.queue[p].id := s.queue[p].target]),
                  C.Take(c, p, until), target)
  {
  }

  lemma TakeFirstShows<M>(s: W.State, d: nat, c: C.Chan<M>, until: int, target: M -> ActionTarget)
    requires d in s.waiters && s.waiters[d].phase.Registered? && Shows(s, c, target)
    ensures var p := C.Position(c.queue, Asked(s.waiters[d].accepts, target));
            var t := W.TakeFirst(s, d);
            if p < |c.queue| then d !in t.waiters && Shows(t, C.Take(c, p, until), target)
            else d in t.waiters && Shows(t, c, target)
  {
    FirstShows(s.waiters[d], s.queue, c.queue, target);
    var p := W.FirstWanted(s.waiters[d], s.queue);
    if p < |s.queue| { TakeShows(s, c, p, until, target); }
  }

  lemma SweepShows<M>(s: W.State, c: C.Chan<M>, now: int, order: seq<nat>, target: M -> ActionTarget)
    requires Shows(s, c, target) && R.Distinct(C.Reclaim(c, order).queue)
    ensures var back := C.Reclaim(c, order);
            Shows(W.Sweep(s, order, StaleIds(back, now)), C.DropStale(back, now), target)
  {
    ReclaimShows(s, c, order, target);
    DropShows(W.Reclaim(s, order), C.Reclaim(c, order), now, target);
  }

  /** A locked pass hands the consumer what the channel hands out, and ends its call exactly then. */
  lemma PassShows<M>(
      s: W.State, d: nat, c: C.Chan<M>, now: int, lease: nat, order: seq<nat>, target: M -> ActionTarget)
    requires d in s.waiters && s.waiters[d].phase.Registered?
    requires Shows(s, c, target) && R.Distinct(C.Reclaim(c, order).queue)
    ensures var t := W.AfterScan(s, d, order, StaleIds(C.Reclaim(c, order), now));
            var (chan, got) := C.Scan(c, now, lease, order, Asked(s.waiters[d].accepts, target));
            Shows(t, chan, target) && (d in t.waiters <==> got.None?)
  {
    var back := C.Reclaim(c, order);
    SweepShows(s, c, now, order, target);
    TakeFirstShows(W.Sweep(s, order, StaleIds(back, now)), d, C.DropStale(back, now), now + lease, target);
  }

  /** A notification reaches everybody who is registered, asleep or not, and moves no delivery. */
  ghost predicate AllWoken(s: W.State, t: W.State) {
    && t.queue == s.queue && t.inflight == s.inflight && t.waiters.Keys == s.waiters.Keys
    && forall c <- s.waiters ::
         && t.waiters[c].accepts == s.waiters[c].accepts
         && t.waiters[c].phase == match s.waiters[c].phase
                                  case Idle => W.Idle
                                  case Registered(_) => W.Registered(true)
                                  case Blocked(_) => W.Blocked(true)
  }

  lemma PushShows<M>(s: W.State, c: C.Chan<M>, m: C.Message<M>, target: M -> ActionTarget, hash: M -> string)
    requires Shows(s, c, target) && C.Accepts(c, m, hash)
    ensures Shows(W.Next(s, W.Push(target(m.body))), C.Publish(c, m, hash), target)
  {
  }

  lemma SettleShows<M>(s: W.State, c: C.Chan<M>, id: nat, target: M -> ActionTarget)
    requires Shows(s, c, target) && id in s.inflight
    ensures Shows(W.Next(s, W.Requeue(id)), C.Nack(c, id), target)
    ensures Shows(W.Next(s, W.Ack(id)), C.Ack(c, id), target)
  {
  }

  lemma StepShows<M>(
      s: W.State, step: W.Step, sys: R.Sys<M>, call: Option<R.Event<M>>, target: M -> ActionTarget, hash: M -> string)
    requires W.Enabled(s, step) && Shows(s, sys.chan, target) && R.Inv(sys)
    requires Makes(s, step, sys.chan, call, target, hash)
    ensures Shows(W.Next(s, step), After(sys, call, hash).chan, target) && R.Inv(After(sys, call, hash))
    ensures step.Notify? ==> AllWoken(s, W.Next(s, step))
  {
    if call.Some? { R.StepKeeps(sys, call.value, hash); }
    match step
    case Scan(d, _, _) =>
      R.ReclaimKeeps(sys, call.value.order);
      PassShows(s, d, sys.chan, call.value.now, call.value.lease, call.value.order, target);
    case Push(_) => PushShows(s, sys.chan, call.value.m, target, hash);
    case Requeue(id) => SettleShows(s, sys.chan, id, target);
    case Ack(id) => SettleShows(s, sys.chan, id, target);
    case _ =>
  }

  // ---- whole runs ----

  /** A run of the protocol with the channel calls its steps make. */
  ghost predicate Beside<M>(
      states: seq<W.State>, steps: seq<W.Step>, systems: seq<R.Sys<M>>, calls: seq<Option<R.Event<M>>>,
      policy: C.Policy, target: M -> ActionTarget, hash: M -> string)
  {
    && W.Run(states, steps) && |systems| == |states| && |calls| == |steps| && systems[0] == R.Start(policy)
    && forall k :: 0 <= k < |steps| ==>
         && Makes(states[k], steps[k], systems[k].chan, calls[k], target, hash)
         && systems[k + 1] == After(systems[k], calls[k], hash)
  }

  /** Whatever consumers wait and whoever notifies, the protocol's queue is the channel's. */
  lemma {:induction false} QueueIsTheChannels<M>(
      states: seq<W.State>, steps: seq<W.Step>, systems: seq<R.Sys<M>>, calls: seq<Option<R.Event<M>>>,
      policy: C.Policy, target: M -> ActionTarget, hash: M -> string, k: nat)
    requires Beside(states, steps, systems, calls, policy, target, hash) && k < |states|
    ensures Shows(states[k], systems[k].chan, target) && R.Inv(systems[k])
  {
    if k > 0 {
      QueueIsTheChannels(states, steps, systems, calls, policy, target, hash, k - 1);
      StepShows(states[k - 1], steps[k - 1], systems[k - 1], calls[k - 1], target, hash);
    }
  }

  // ---- the `notify_one` channels ----

  /** The protocol counts what is queued and what is in flight. */
  ghost predicate Counts<M>(s: One.State, c: C.Chan<M>) {
    s.queue == |c.queue| && s.inflight == |c.inflight| && c.policy.Deduped?
  }

  ghost predicate MakesOne<M>(step: One.Step, c: C.Chan<M>, call: Option<R.Event<M>>, hash: M -> string) {
    match step
    case Push => call.Some? && call.value.PublishEvent? && C.Accepts(c, call.value.m, hash)
    case Requeue => call.Some? && call.value.NackEvent? && call.value.id in c.inflight
    case Ack => call.Some? && call.value.AckEvent? && call.value.id in c.inflight
    case Scan(_, expired) =>
      && call.Some? && call.value.ReceiveEvent? && |call.value.order| == expired
      && C.ExpiredOrder(c, call.value.now, call.value.order)
      && call.value.matches == ((_: C.Delivery<M>) => true)
    case _ => call.None?
  }

  lemma {:induction false} ReclaimCounts<M>(c: C.Chan<M>, order: seq<nat>)
    requires forall i, j :: 0 <= i < j < |order| ==> order[i] != order[j]
    requires forall id <- order :: id in c.inflight
    ensures var t := C.Reclaim(c, order);
            |t.queue| == |c.queue| + |order| && |t.inflight| == |c.inflight| - |order| && t.policy == c.policy
    decreases |order|
  {
    if order != [] {
      assert order[0] in order;
      forall id | id in order[1..] ensures id in order && id != order[0] {}
      assert c.inflight.Keys == (c.inflight - {order[0]}).Keys + {order[0]};
      ReclaimCounts(C.Requeue(c, order[0]), order[1..]);
    }
  }

  lemma StepCounts<M>(s: One.State, step: One.Step, sys: R.Sys<M>, call: Option<R.Event<M>>, hash: M -> string)
    requires One.Enabled(s, step) && Counts(s, sys.chan) && R.Inv(sys) && MakesOne(step, sys.chan, call, hash)
    ensures Counts(One.Next(s, step), After(sys, call, hash).chan) && R.Inv(After(sys, call, hash))
  {
    if call.Some? { R.StepKeeps(sys, call.value, hash); }
    if step.Scan? {
      PassCounts(s, step, sys, call.value);
    } else {
      CallCounts(s, step, sys.chan, call, hash);
    }
  }

  lemma CallCounts<M>(s: One.State, step: One.Step, c: C.Chan<M>, call: Option<R.Event<M>>, hash: M -> string)
    requires One.Enabled(s, step) && !step.Scan? && Counts(s, c) && MakesOne(step, c, call, hash)
    ensures Counts(One.Next(s, step),
                   match call
                   case None => c
                   case Some(PublishEvent(m)) => C.Publish(c, m, hash)
                   case Some(NackEvent(id)) => C.Nack(c, id)
                   case Some(AckEvent(id)) => C.Ack(c, id)
                   case Some(_) => c)
  {
    if step.Requeue? || step.Ack? { RemovedCounts(c.inflight, call.value.id); }
  }

  lemma RemovedCounts<M>(inflight: map<nat, C.Leased<M>>, id: nat)
    requires id in inflight
    ensures |inflight - {id}| == |inflight| - 1
  {
    assert inflight.Keys == (inflight - {id}).Keys + {id};
  }

  /** Every consumer takes the head of the queue, and stops scanning exactly when there is none. */
  lemma PassCounts<M>(s: One.State, step: One.Step, sys: R.Sys<M>, call: R.Event<M>)
    requires One.Enabled(s, step) && step.Scan? && Counts(s, sys.chan) && R.Inv(sys)
    requires call.ReceiveEvent? && |call.order| == step.expired && C.ExpiredOrder(sys.chan, call.now, call.order)
    requires call.matches == ((_: C.Delivery<M>) => true)
    ensures var (chan, got) := C.Scan(sys.chan, call.now, call.lease, call.order, call.matches);
            var t := One.Next(s, step);
            Counts(t, chan) && (t.phases[step.c] == One.Scanned <==> got.None?)
  {
    var back := C.Reclaim(sys.chan, call.order);
    R.ReclaimKeeps(sys, call.order);
    forall id | id in call.order ensures id in sys.chan.inflight {}
    ReclaimCounts(sys.chan, call.order);
    if back.queue != [] {
      assert back.queue[0] in back.queue;
      var t := C.Take(back, 0, call.now + call.lease);
      assert t.inflight.Keys == back.inflight.Keys + {back.queue[0].id};
    }
  }

  ghost predicate BesideOne<M>(
      consumers: set<nat>, states: seq<One.State>, steps: seq<One.Step>, systems: seq<R.Sys<M>>,
      calls: seq<Option<R.Event<M>>>, hash: M -> string)
  {
    && One.Run(consumers, states, steps) && |systems| == |states| && |calls| == |steps|
    && systems[0] == R.Start(C.Deduped)
    && forall k :: 0 <= k < |steps| ==>
         && MakesOne(steps[k], systems[k].chan, calls[k], hash)
         && systems[k + 1] == After(systems[k], calls[k], hash)
  }

  /** However many consumers share a `notify_one` channel, the protocol counts that channel's deliveries. */
  lemma {:induction false} CountsAreTheChannels<M>(
      consumers: set<nat>, states: seq<One.State>, steps: seq<One.Step>, systems: seq<R.Sys<M>>,
      calls: seq<Option<R.Event<M>>>, hash: M -> string, k: nat)
    requires BesideOne(consumers, states, steps, systems, calls, hash) && k < |states|
    ensures Counts(states[k], systems[k].chan) && R.Inv(systems[k])
  {
    if k > 0 {
      CountsAreTheChannels(consumers, states, steps, systems, calls, hash, k - 1);
      StepCounts(states[k - 1], steps[k - 1], systems[k - 1], calls[k - 1], hash);
    }
  }
}
