/**
 The result, wake and ingress channels scan first and wake with `notify_one`, which stores at most
 one permit when nobody waits (runinator-broker/src/in_memory.rs). With one consumer no wakeup is
 lost; with two, one can be, and the consumer then sleeps out its fallback timer.
 */
module WakeupOne {
  /** Between an empty scan and its wait a consumer is `Scanned`: not yet registered for wakeups. */
  datatype Phase = Idle | Scanned | Blocked(notified: bool)

  datatype State = State(
    queue: nat,              // queued deliveries; every consumer takes the head
    inflight: nat,
    phases: map<nat, Phase>,
    unannounced: nat,        // pushes that have not notified yet
    permit: bool)

  datatype Step =
    | Scan(c: nat, expired: nat)
    | Wait(c: nat)
    | Push
    | Requeue
    | Ack
    | Notify(woken: nat)
    | Wake(c: nat)
    | Timeout(c: nat)

  function Initial(consumers: set<nat>): State {
    State(0, 0, map c | c in consumers :: Idle, 0, false)
  }

  function Sleepers(s: State): set<nat> {
    set c | c in s.phases && s.phases[c] == Blocked(false)
  }

  predicate Enabled(s: State, step: Step) {
    match step
    case Scan(c, expired) => c in s.phases && s.phases[c].Idle? && expired <= s.inflight
    case Wait(c) => c in s.phases && s.phases[c].Scanned?
    case Push => true
    case Requeue => s.inflight > 0
    case Ack => s.inflight > 0
    case Notify(woken) => s.unannounced > 0 && (Sleepers(s) != {} ==> woken in Sleepers(s))
    case Wake(c) => c in s.phases && s.phases[c] == Blocked(true)
    case Timeout(c) => c in s.phases && s.phases[c].Blocked?
  }

  function Next(s: State, step: Step): State
    requires Enabled(s, step)
  {
    match step
    case Scan(c, expired) =>
      var queue, inflight := s.queue + expired, s.inflight - expired;
      if queue > 0 then s.(queue := queue - 1, inflight := inflight + 1)
      else s.(phases := s.phases[c := Scanned])
    case Wait(c) =>
      if s.permit then s.(permit := false, phases := s.phases[c := Idle])
      else s.(phases := s.phases[c := Blocked(false)])
    case Push => s.(queue := s.queue + 1, unannounced := s.unannounced + 1)
    case Requeue => s.(queue := s.queue + 1, inflight := s.inflight - 1, unannounced := s.unannounced + 1)
    case Ack => s.(inflight := s.inflight - 1)
    case Notify(woken) =>
      if Sleepers(s) == {} then s.(unannounced := s.unannounced - 1, permit := true)
      else s.(unannounced := s.unannounced - 1, phases := s.phases[woken := Blocked(true)])
    case Wake(c) => s.(phases := s.phases[c := Idle])
    case Timeout(c) => s.(phases := s.phases[c := Idle])
  }

  ghost predicate Run(consumers: set<nat>, states: seq<State>, steps: seq<Step>) {
    && |states| == |steps| + 1 && states[0] == Initial(consumers)
    && forall k :: 0 <= k < |steps| ==> Enabled(states[k], steps[k]) && states[k + 1] == Next(states[k], steps[k])
  }

  /** A sleeping consumer, work in the queue, and no notification on its way. */
  predicate Lost(s: State) {
    Sleepers(s) != {} && s.queue > 0 && s.unannounced == 0
  }

  ghost predicate OneConsumer(s: State, c: nat) {
    && s.phases.Keys == {c}
    && (s.phases[c].Scanned? && s.queue > 0 ==> s.permit || s.unannounced > 0)
    && (s.phases[c] == Blocked(false) ==> !s.permit && (s.queue > 0 ==> s.unannounced > 0))
  }

  lemma {:induction false} OneConsumerKeeps(c: nat, states: seq<State>, steps: seq<Step>, k: nat)
    requires Run({c}, states, steps) && k < |states|
    ensures OneConsumer(states[k], c)
  {
    if k > 0 {
      OneConsumerKeeps(c, states, steps, k - 1);
      var s, t := states[k - 1], states[k];
      assert t == Next(s, steps[k - 1]);
      if steps[k - 1].Notify? && Sleepers(s) == {} {
        assert c !in Sleepers(s);
      }
    }
  }

  /** A channel with a single consumer never loses a wakeup. */
  lemma SingleConsumerIsServed(c: nat, states: seq<State>, steps: seq<Step>, k: nat)
    requires Run({c}, states, steps) && k < |states|
    ensures !Lost(states[k])
  {
    OneConsumerKeeps(c, states, steps, k);
    if Sleepers(states[k]) != {} {
      var d :| d in Sleepers(states[k]);
      assert d in states[k].phases.Keys;
    }
  }

  /**
   Any second consumer can lose one: both scan an empty queue, two pushes then share the one stored
   permit, and the consumer that finds it spent sleeps beside a queued delivery.
   */
  lemma TwoConsumersCanLoseAWakeup(consumers: set<nat>, a: nat, b: nat) returns (states: seq<State>, steps: seq<Step>)
    requires a in consumers && b in consumers && a != b
    ensures Run(consumers, states, steps) && Lost(states[|steps|])
  {
    steps := [Scan(a, 0), Scan(b, 0), Push, Notify(a), Push, Notify(a), Wait(a), Scan(a, 0), Wait(b)];
    var s0 := Initial(consumers);
    var s1 := Next(s0, steps[0]);
    var s2 := Next(s1, steps[1]);
    var s3 := Next(s2, steps[2]);
    assert Sleepers(s3) == {};
    var s4 := Next(s3, steps[3]);
    var s5 := Next(s4, steps[4]);
    assert Sleepers(s5) == {};
    var s6 := Next(s5, steps[5]);
    var s7 := Next(s6, steps[6]);
    var s8 := Next(s7, steps[7]);
    var s9 := Next(s8, steps[8]);
    assert b in Sleepers(s9);
    states := [s0, s1, s2, s3, s4, s5, s6, s7, s8, s9];
  }

  /** A run of these consumers that ends with a lost wakeup. */
  ghost predicate LosesOne(consumers: set<nat>, states: seq<State>, steps: seq<Step>) {
    Run(consumers, states, steps) && Lost(states[|steps|])
  }

  lemma {:induction false} ConsumersStay(consumers: set<nat>, states: seq<State>, steps: seq<Step>, k: nat)
    requires Run(consumers, states, steps) && k < |states|
    ensures states[k].phases.Keys == consumers
  {
    if k > 0 {
      ConsumersStay(consumers, states, steps, k - 1);
      assert states[k] == Next(states[k - 1], steps[k - 1]);
    }
  }

  /** A `notify_one` channel can lose a wakeup if and only if it has more than one consumer. */
  lemma WakeupsAreLostIffShared(consumers: set<nat>)
    ensures (exists states, steps :: LosesOne(consumers, states, steps))
            <==> exists a, b :: a in consumers && b in consumers && a != b
  {
    if a, b :| a in consumers && b in consumers && a != b {
      var states, steps := TwoConsumersCanLoseAWakeup(consumers, a, b);
      assert LosesOne(consumers, states, steps);
    } else {
      forall states, steps | Run(consumers, states, steps) ensures !LosesOne(consumers, states, steps) {
        ConsumersStay(consumers, states, steps, |steps|);
        if c :| c in consumers {
          assert consumers == {c};
          SingleConsumerIsServed(c, states, steps, |steps|);
        } else {
          assert Sleepers(states[|steps|]) == {};
        }
      }
    }
  }
}
