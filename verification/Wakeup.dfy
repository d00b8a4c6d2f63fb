/**
 The wakeup protocol of the action and control channels, with every step apart: a consumer registers
 for wakeups, then scans under the lock, then blocks; a publisher or nacker pushes under the lock and
 notifies all waiters after releasing it (runinator-broker/src/in_memory.rs).
 */
module Wakeup {
  import opened Wrappers
  import opened Targeting

  /** Who put a queued delivery there: one push, named by its token, or some consumer's reclaim. */
  datatype Cause = PushedBy(token: nat) | Reclaimed

  datatype Item = Item(id: nat, target: ActionTarget, cause: Cause)

  datatype Phase = Idle | Registered(notified: bool) | Blocked(notified: bool)

  /** A consumer inside a receive call; `None` accepts every delivery (`receive_control`). */
  datatype Waiter = Waiter(accepts: Option<ConsumerProfile>, phase: Phase)

  datatype State = State(
    queue: seq<Item>,
    inflight: map<nat, ActionTarget>,
    waiters: map<nat, Waiter>,
    unannounced: set<nat>,   // pushes that have not notified yet
    nextId: nat,
    nextToken: nat)

  datatype Step =
    | Call(c: nat, accepts: Option<ConsumerProfile>)
    | Register(c: nat)
    | Scan(c: nat, expired: seq<nat>, stale: set<nat>)
    | Push(target: ActionTarget)
    | Requeue(id: nat)
    | Ack(id: nat)
    | Notify(token: nat)
    | Wake(c: nat)
    | Timeout(c: nat)

  const INITIAL := State([], map[], map[], {}, 0, 0)

  predicate Wants(w: Waiter, item: Item) {
    w.accepts.None? || Matches(item.target, w.accepts.value)
  }

  /** Expired leases go to the front of the queue; nobody is notified. */
  function Reclaim(s: State, expired: seq<nat>): (t: State)
    ensures t.waiters == s.waiters
    decreases |expired|
  {
    if expired == [] then s
    else if expired[0] !in s.inflight then Reclaim(s, expired[1..])
    else Reclaim(s.(queue := [Item(s.nextId, s.inflight[expired[0]], Reclaimed)] + s.queue,
                    inflight := s.inflight - {expired[0]},
                    nextId := s.nextId + 1),
                 expired[1..])
  }

  function Keep(queue: seq<Item>, stale: set<nat>): seq<Item> {
    if queue == [] then []
    else (if queue[0].id in stale then [] else [queue[0]]) + Keep(queue[1..], stale)
  }

  function FirstWanted(w: Waiter, queue: seq<Item>): (p: nat)
    ensures p <= |queue|
    ensures p < |queue| ==> Wants(w, queue[p])
    ensures p == |queue| ==> forall item <- queue :: !Wants(w, item)
  {
    if queue == [] || Wants(w, queue[0]) then 0 else 1 + FirstWanted(w, queue[1..])
  }

  function Notified(w: Waiter): Waiter {
    match w.phase
    case Idle => w
    case Registered(_) => w.(phase := Registered(true))
    case Blocked(_) => w.(phase := Blocked(true))
  }

  function InPhase(s: State, c: nat, phase: Phase): State
    requires c in s.waiters
  {
    s.(waiters := s.waiters[c := s.waiters[c].(phase := phase)])
  }

  predicate Enabled(s: State, step: Step) {
    match step
    case Call(c, _) => c !in s.waiters
    case Register(c) => c in s.waiters && s.waiters[c].phase.Idle?
    case Scan(c, _, _) => c in s.waiters && s.waiters[c].phase.Registered?
    case Push(_) => true
    case Requeue(id) => id in s.inflight
    case Ack(id) => id in s.inflight
    case Notify(token) => token in s.unannounced
    case Wake(c) => c in s.waiters && s.waiters[c].phase == Blocked(true)
    case Timeout(c) => c in s.waiters && s.waiters[c].phase.Blocked?
  }

  function Next(s: State, step: Step): State
    requires Enabled(s, step)
  {
    match step
    case Call(c, accepts) => s.(waiters := s.waiters[c := Waiter(accepts, Idle)])
    case Register(c) => InPhase(s, c, Registered(false))
    case Scan(c, expired, stale) => AfterScan(s, c, expired, stale)
    case Push(target) =>
      s.(queue := s.queue + [Item(s.nextId, target, PushedBy(s.nextToken))],
         unannounced := s.unannounced + {s.nextToken}, nextId := s.nextId + 1, nextToken := s.nextToken + 1)
    case Requeue(id) =>
      s.(queue := [Item(s.nextId, s.inflight[id], PushedBy(s.nextToken))] + s.queue,
         inflight := s.inflight - {id},
         unannounced := s.unannounced + {s.nextToken}, nextId := s.nextId + 1, nextToken := s.nextToken + 1)
    case Ack(id) => s.(inflight := s.inflight - {id})
    case Notify(token) =>
      s.(unannounced := s.unannounced - {token}, waiters := map c | c in s.waiters :: Notified(s.waiters[c]))
    case Wake(c) => InPhase(s, c, Idle)
    case Timeout(c) => InPhase(s, c, Idle)
  }

  /** The queue a locked pass looks through. */
  function Sweep(s: State, expired: seq<nat>, stale: set<nat>): (t: State)
    ensures t.waiters == s.waiters
  {
    var reclaimed := Reclaim(s, expired);
    reclaimed.(queue := Keep(reclaimed.queue, stale))
  }

  /** A match ends the call, otherwise the consumer blocks on its registration. */
  function TakeFirst(s: State, c: nat): State
    requires c in s.waiters && s.waiters[c].phase.Registered?
  {
    var p := FirstWanted(s.waiters[c], s.queue);
    if p < |s.queue| then
      s.(queue := s.queue[..p] + s.queue[p + 1..],
         inflight := s.inflight[s.queue[p].id := s.queue[p].target],
         waiters := s.waiters - {c})
    else
      s.(waiters := s.waiters[c := s.waiters[c].(phase := Blocked(s.waiters[c].phase.notified))])
  }

  /** The locked pass. */
  function AfterScan(s: State, c: nat, expired: seq<nat>, stale: set<nat>): State
    requires c in s.waiters && s.waiters[c].phase.Registered?
  {
    TakeFirst(Sweep(s, expired, stale), c)
  }

  ghost predicate Run(states: seq<State>, steps: seq<Step>) {
    && |states| == |steps| + 1 && states[0] == INITIAL
    && forall k :: 0 <= k < |steps| ==> Enabled(states[k], steps[k]) && states[k + 1] == Next(states[k], steps[k])
  }

  /** A queued delivery whose push has been announced, or is still to be, to everyone who waits. */
  predicate Excused(s: State, item: Item) {
    item.cause.Reclaimed? || item.cause.token in s.unannounced
  }

  /** No blocked consumer that is still to be notified has a match in the queue, but for the excuses. */
  ghost predicate NoLostWakeup(s: State) {
    forall c <- s.waiters, item <- s.queue ::
      s.waiters[c].phase == Blocked(false) && Wants(s.waiters[c], item) ==> Excused(s, item)
  }

  lemma ReclaimAddsOnlyReclaimed(s: State, expired: seq<nat>)
    ensures var t := Reclaim(s, expired);
            && t.waiters == s.waiters && t.unannounced == s.unannounced && t.nextToken == s.nextToken
            && forall item :: item in t.queue ==> item in s.queue || item.cause.Reclaimed?
    decreases |expired|
  {
    if expired != [] {
      var s' := if expired[0] !in s.inflight then s
                else s.(queue := [Item(s.nextId, s.inflight[expired[0]], Reclaimed)] + s.queue,
                        inflight := s.inflight - {expired[0]}, nextId := s.nextId + 1);
      ReclaimAddsOnlyReclaimed(s', expired[1..]);
    }
  }

  lemma KeepIsSubset(queue: seq<Item>, stale: set<nat>)
    ensures forall item :: item in Keep(queue, stale) ==> item in queue
  {
  }

  lemma SweepKeeps(s: State, expired: seq<nat>, stale: set<nat>)
    requires NoLostWakeup(s)
    ensures NoLostWakeup(Sweep(s, expired, stale))
  {
    ReclaimAddsOnlyReclaimed(s, expired);
    KeepIsSubset(Reclaim(s, expired).queue, stale);
  }

  lemma TakeFirstKeeps(s: State, c: nat)
    requires NoLostWakeup(s) && c in s.waiters && s.waiters[c].phase.Registered?
    ensures NoLostWakeup(TakeFirst(s, c))
  {
    var t := TakeFirst(s, c);
    forall d, item | d in t.waiters && item in t.queue
                     && t.waiters[d].phase == Blocked(false) && Wants(t.waiters[d], item)
      ensures Excused(t, item)
    {
      assert item in s.queue;
      if d == c { assert Wants(s.waiters[c], item); }
    }
  }

  lemma StepKeeps(s: State, step: Step)
    requires NoLostWakeup(s) && Enabled(s, step)
    ensures NoLostWakeup(Next(s, step))
  {
    match step
    case Scan(c, expired, stale) =>
      SweepKeeps(s, expired, stale);
      TakeFirstKeeps(Sweep(s, expired, stale), c);
    case Notify(token) =>
      var t := Next(s, step);
      forall c | c in t.waiters ensures t.waiters[c].phase != Blocked(false) {}
    case _ =>
  }

  /**
   In every reachable state a blocked consumer that no notification has reached coexists with a
   queued delivery it wants only if that delivery's own push is still to notify, or a reclaim put it
   there.
   */
  lemma {:induction false} WakeupsAreNotLost(states: seq<State>, steps: seq<Step>, k: nat)
    requires Run(states, steps) && k < |states|
    ensures NoLostWakeup(states[k])
  {
    if k > 0 {
      WakeupsAreNotLost(states, steps, k - 1);
      StepKeeps(states[k - 1], steps[k - 1]);
    }
  }

  /** Once every push has notified and nothing was reclaimed, nobody sleeps on a match. */
  lemma QuietMeansServed(states: seq<State>, steps: seq<Step>, k: nat)
    requires Run(states, steps) && k < |states|
    requires states[k].unannounced == {}
    requires forall item <- states[k].queue :: item.cause != Reclaimed
    ensures forall c <- states[k].waiters, item <- states[k].queue ::
              states[k].waiters[c].phase == Blocked(false) ==> !Wants(states[k].waiters[c], item)
  {
    WakeupsAreNotLost(states, steps, k);
  }

  /** A run of one step more. */
  lemma Extend(states: seq<State>, steps: seq<Step>, step: Step, t: State)
    requires Run(states, steps) && Enabled(states[|steps|], step) && t == Next(states[|steps|], step)
    ensures Run(states + [t], steps + [step])
  {
  }

  // ---- who shares the channel ----

  /** All receive calls come from these consumers. */
  ghost predicate CalledBy(steps: seq<Step>, consumers: set<nat>) {
    forall k :: 0 <= k < |steps| && steps[k].Call? ==> steps[k].c in consumers
  }

  /** A consumer sleeps, with no notification on its way, beside a delivery it wants. */
  ghost predicate Stranded(s: State) {
    exists c, item :: c in s.waiters && item in s.queue && s.waiters[c].phase == Blocked(false)
                      && Wants(s.waiters[c], item) && (item.cause.PushedBy? ==> item.cause.token !in s.unannounced)
  }

  /** The only waiter is `c`, and asleep it wants nothing but deliveries that are still to be announced. */
  ghost predicate Alone(s: State, c: nat) {
    && s.waiters.Keys <= {c}
    && (c in s.waiters && s.waiters[c].phase == Blocked(false) ==>
          forall item <- s.queue ::
            Wants(s.waiters[c], item) ==> item.cause.PushedBy? && item.cause.token in s.unannounced)
  }

  lemma {:induction false} AloneKeeps(s: State, step: Step, c: nat)
    requires Alone(s, c) && Enabled(s, step) && (step.Call? ==> step.c == c)
    ensures Alone(Next(s, step), c)
  {
    match step
    case Scan(d, expired, stale) =>
      assert d in s.waiters.Keys;
      ReclaimAddsOnlyReclaimed(s, expired);
    case Notify(token) =>
      var t := Next(s, step);
      forall d | d in t.waiters ensures t.waiters[d].phase != Blocked(false) {}
    case _ =>
  }

  /** A consumer that has the channel to itself is never stranded: whatever it reclaims, it scans. */
  lemma {:induction false} SingleCallerIsAlone(c: nat, states: seq<State>, steps: seq<Step>, k: nat)
    requires Run(states, steps) && CalledBy(steps, {c}) && k < |states|
    ensures Alone(states[k], c) && !Stranded(states[k])
  {
    if k > 0 {
      SingleCallerIsAlone(c, states, steps, k - 1);
      AloneKeeps(states[k - 1], steps[k - 1], c);
    }
    if d, item :| d in states[k].waiters && item in states[k].queue
                  && states[k].waiters[d].phase == Blocked(false) && Wants(states[k].waiters[d], item)
                  && (item.cause.PushedBy? ==> item.cause.token !in states[k].unannounced) {
      assert d in states[k].waiters.Keys;
    }
  }

  const POOL := Some(Shared("pool"))
  const DESKTOP := Some(Shared("desktop").(exclusive := true))

  /** A general-pool delivery is published, announced and leased by consumer `c`. */
  lemma LeaseOne(c: nat) returns (states: seq<State>, steps: seq<Step>)
    ensures Run(states, steps) && CalledBy(steps, {c})
    ensures states[|steps|] == State([], map[0 := Any], map[], {}, 1, 1)
  {
    var queued := [Item(0, Any, PushedBy(0))];
    states, steps := [INITIAL], [];
    var s1 := State(queued, map[], map[], {0}, 1, 1);
    Extend(states, steps, Push(Any), s1);
    states, steps := states + [s1], steps + [Push(Any)];
    var s2 := State(queued, map[], map[], {}, 1, 1);
    Extend(states, steps, Notify(0), s2);
    states, steps := states + [s2], steps + [Notify(0)];
    states, steps := Enter(states, steps, c, POOL);
    assert Keep(queued, {}) == queued && FirstWanted(Waiter(POOL, Registered(false)), queued) == 0;
    var s5 := State([], map[0 := Any], map[], {}, 1, 1);
    Extend(states, steps, Scan(c, [], {}), s5);
    states, steps := states + [s5], steps + [Scan(c, [], {})];
  }

  /** A new consumer calls receive and registers for wakeups. */
  lemma Enter(states: seq<State>, steps: seq<Step>, c: nat, accepts: Option<ConsumerProfile>)
    returns (states': seq<State>, steps': seq<Step>)
    requires Run(states, steps) && c !in states[|steps|].waiters
    ensures Run(states', steps') && steps' == steps + [Call(c, accepts), Register(c)]
    ensures var s := states[|steps|];
            states'[|steps'|] == s.(waiters := s.waiters[c := Waiter(accepts, Registered(false))])
  {
    var s := states[|steps|];
    var called := s.(waiters := s.waiters[c := Waiter(accepts, Idle)]);
    var registered := s.(waiters := s.waiters[c := Waiter(accepts, Registered(false))]);
    assert InPhase(called, c, Registered(false)) == registered;
    Extend(states, steps, Call(c, accepts), called);
    Extend(states + [called], steps + [Call(c, accepts)], Register(c), registered);
    states' := states + [called] + [registered];
    steps' := steps + [Call(c, accepts)] + [Register(c)];
  }

  /** A consumer that has leased a delivery calls again and goes to sleep. */
  lemma LeaseAndSleep(c: nat) returns (states: seq<State>, steps: seq<Step>)
    ensures Run(states, steps) && CalledBy(steps, {c})
    ensures states[|steps|] == State([], map[0 := Any], map[c := Waiter(POOL, Blocked(false))], {}, 1, 1)
  {
    states, steps := LeaseOne(c);
    states, steps := Enter(states, steps, c, POOL);
    var asleep := State([], map[0 := Any], map[c := Waiter(POOL, Blocked(false))], {}, 1, 1);
    Extend(states, steps, Scan(c, [], {}), asleep);
    states, steps := states + [asleep], steps + [Scan(c, [], {})];
  }

  /**
   The reclaim excuse is needed: any second consumer whose own pass reclaims a delivery it does not
   want leaves the first one, which does want it, asleep with every push long announced.
   */
  lemma ReclaimCanStrandASleeper(consumers: set<nat>, a: nat, b: nat) returns (states: seq<State>, steps: seq<Step>)
    requires a in consumers && b in consumers && a != b
    ensures Run(states, steps) && CalledBy(steps, consumers)
    ensures states[|steps|].unannounced == {} && Stranded(states[|steps|])
  {
    states, steps := LeaseAndSleep(a);
    states, steps := Enter(states, steps, b, DESKTOP);
    var back, s := [Item(1, Any, Reclaimed)], states[|steps|];
    assert Reclaim(s, [0]) == Reclaim(State(back, map[], s.waiters, {}, 2, 1), [0][1..]) by {
      assert s.inflight - {0} == map[];
    }
    assert Keep(back, {}) == back;
    var t := State(back, map[], s.waiters[b := Waiter(DESKTOP, Blocked(false))], {}, 2, 1);
    Extend(states, steps, Scan(b, [0], {}), t);
    states, steps := states + [t], steps + [Scan(b, [0], {})];
    assert a in t.waiters && back[0] in t.queue && Wants(t.waiters[a], back[0]);
  }

  /** A run of calls by these consumers that ends with one of them stranded. */
  ghost predicate StrandsOne(consumers: set<nat>, states: seq<State>, steps: seq<Step>) {
    Run(states, steps) && CalledBy(steps, consumers) && Stranded(states[|steps|])
  }

  /** A consumer can be stranded on such a channel if and only if it has more than one consumer. */
  lemma SleepersAreStrandedIffShared(consumers: set<nat>)
    ensures (exists states, steps :: StrandsOne(consumers, states, steps))
            <==> exists a, b :: a in consumers && b in consumers && a != b
  {
    if a, b :| a in consumers && b in consumers && a != b {
      var states, steps := ReclaimCanStrandASleeper(consumers, a, b);
      assert StrandsOne(consumers, states, steps);
    } else {
      forall states, steps | Run(states, steps) && CalledBy(steps, consumers)
        ensures !StrandsOne(consumers, states, steps)
      {
        var c: nat := if c :| c in consumers then c else 0;
        SingleCallerIsAlone(c, states, steps, |steps|);
      }
    }
  }
}
