/**
 The targeting loops every backend without its own routing inherits from the `Broker` trait
 (runinator-broker/src/lib.rs), run on a FIFO backend that requeues a nack at the tail. The source
 loops until a match arrives; a budget of receives bounds the model, and the contracts hold for
 every budget.
 */
module DefaultLoops {
  import opened Wrappers
  import opened Channel

  /** The deliveries among the first `k` that a control loop puts back, oldest first. */
  function PutBack<M>(queue: seq<Delivery<M>>, clock: nat -> int, k: nat): seq<Delivery<M>>
    requires k <= |queue|
  {
    if k == 0 then []
    else
      PutBack(queue, clock, k - 1)
      + if clock(k - 1) - queue[k - 1].enqueuedAt >= 300_000 then [] else [queue[k - 1]]
  }

  function Rotate<T>(q: seq<T>, k: nat): seq<T>
    requires k <= |q|
  {
    q[k..] + q[..k]
  }

  function Deliveries<M>(acked: seq<(Delivery<M>, int)>): seq<Delivery<M>> {
    if acked == [] then [] else Deliveries(acked[..|acked| - 1]) + [acked[|acked| - 1].0]
  }

  /** Everything is still queued or was acked. */
  ghost predicate Balanced<M>(q: seq<Delivery<M>>, queue: seq<Delivery<M>>, acked: seq<(Delivery<M>, int)>) {
    multiset(q) == multiset(queue) + multiset(Deliveries(acked))
  }

  lemma HeadFirst<T>(queue: seq<T>)
    requires queue != []
    ensures multiset(queue) == multiset{queue[0]} + multiset(queue[1..])
    ensures multiset(queue[1..] + [queue[0]]) == multiset(queue)
  {
    assert queue == [queue[0]] + queue[1..];
  }

  lemma BalancedHead<M>(q: seq<Delivery<M>>, queue: seq<Delivery<M>>, acked: seq<(Delivery<M>, int)>)
    requires queue != [] && Balanced(q, queue, acked)
    ensures multiset(q) == multiset(queue[1..]) + multiset(Deliveries(acked)) + multiset{queue[0]}
  {
    HeadFirst(queue);
  }

  lemma BalancedNack<M>(q: seq<Delivery<M>>, queue: seq<Delivery<M>>, acked: seq<(Delivery<M>, int)>)
    requires queue != [] && Balanced(q, queue, acked)
    ensures Balanced(q, queue[1..] + [queue[0]], acked)
  {
    HeadFirst(queue);
  }

  lemma BalancedAck<M>(q: seq<Delivery<M>>, queue: seq<Delivery<M>>, acked: seq<(Delivery<M>, int)>, t: int)
    requires queue != [] && Balanced(q, queue, acked)
    ensures Balanced(q, queue[1..], acked + [(queue[0], t)])
  {
    BalancedHead(q, queue, acked);
  }

  /** Only mismatches past their ttl were acked. */
  ghost predicate OnlyMoot<M>(acked: seq<(Delivery<M>, int)>, matches: Delivery<M> -> bool) {
    forall a :: a in acked ==> !matches(a.0) && a.1 - a.0.enqueuedAt >= 300_000
  }

  /**
   Where the control loop stands after `k` receives on a backend that held `q`, whose first match is
   at `p`: until it meets that match the queue is the unseen rest followed by what was put back.
   */
  ghost predicate Progress<M>(
      q: seq<Delivery<M>>, p: nat, matches: Delivery<M> -> bool, clock: nat -> int,
      k: nat, queue: seq<Delivery<M>>)
  {
    && p <= |q|
    && (p < |q| ==> k <= p && queue == q[k..] + PutBack(q, clock, k))
    && (p == |q| ==> forall i :: 0 <= i < |queue| ==> !matches(queue[i]))
  }

  lemma ProgressAhead<M>(q: seq<Delivery<M>>, clock: nat -> int, k: nat, queue: seq<Delivery<M>>)
    requires k < |q| && queue == q[k..] + PutBack(q, clock, k)
    ensures queue[0] == q[k] && queue[1..] == q[k + 1..] + PutBack(q, clock, k)
    ensures (if Stale(q[k].enqueuedAt, clock(k)) then queue[1..] else queue[1..] + [q[k]])
            == q[k + 1..] + PutBack(q, clock, k + 1)
  {
    assert queue[1..] == q[k + 1..] + PutBack(q, clock, k);
  }

  lemma ProgressStep<M>(
      q: seq<Delivery<M>>, p: nat, matches: Delivery<M> -> bool, clock: nat -> int,
      k: nat, queue: seq<Delivery<M>>)
    requires Progress(q, p, matches, clock, k, queue) && queue != []
    requires p < |q| ==> matches(q[p]) && forall j :: 0 <= j < p ==> !matches(q[j])
    ensures matches(queue[0]) ==>
              p < |q| && p == k && queue[0] == q[p] && queue[1..] == q[p + 1..] + PutBack(q, clock, p)
    ensures !matches(queue[0]) ==>
              Progress(q, p, matches, clock, k + 1,
                       if Stale(queue[0].enqueuedAt, clock(k)) then queue[1..] else queue[1..] + [queue[0]])
  {
    if p < |q| {
      ProgressAhead(q, clock, k, queue);
    } else {
      var rest := queue[1..] + [queue[0]];
      assert forall i :: 0 <= i < |rest| ==> rest[i] == if i < |queue| - 1 then queue[i + 1] else queue[0];
    }
  }

  /** The control loop from its k-th receive on: what it returns, leaves queued and has acked. */
  function ControlLoop<M>(
      queue: seq<Delivery<M>>, acked: seq<(Delivery<M>, int)>, matches: Delivery<M> -> bool, clock: nat -> int,
      k: nat, budget: nat)
    : (Option<Delivery<M>>, seq<Delivery<M>>, seq<(Delivery<M>, int)>)
    requires k <= budget
    decreases budget - k
  {
    if k == budget || queue == [] then (None, queue, acked)
    else if matches(queue[0]) then (Some(queue[0]), queue[1..], acked)
    else if Stale(queue[0].enqueuedAt, clock(k)) then
      ControlLoop(queue[1..], acked + [(queue[0], clock(k))], matches, clock, k + 1, budget)
    else
      ControlLoop(queue[1..] + [queue[0]], acked, matches, clock, k + 1, budget)
  }

  /** It got the first match if the budget reaches it, whatever its age; what it put back is in order. */
  ghost predicate Routed<M>(
      q: seq<Delivery<M>>, p: nat, clock: nat -> int, budget: nat, got: Option<Delivery<M>>, queue: seq<Delivery<M>>)
    requires p <= |q|
  {
    && (got.Some? <==> p < |q| && p < budget)
    && (got.Some? ==> got.value == q[p] && queue == q[p + 1..] + PutBack(q, clock, p))
  }

  /** Only moot mismatches were acked, and nothing is lost. */
  ghost predicate Conserved<M>(
      q: seq<Delivery<M>>, matches: Delivery<M> -> bool, got: Option<Delivery<M>>, queue: seq<Delivery<M>>,
      acked: seq<(Delivery<M>, int)>)
  {
    && OnlyMoot(acked, matches)
    && multiset(q) ==
       multiset(queue) + multiset(Deliveries(acked)) + if got.Some? then multiset{got.value} else multiset{}
  }

  lemma {:induction false} ControlLoopRoutes<M>(
      q: seq<Delivery<M>>, p: nat, matches: Delivery<M> -> bool, clock: nat -> int,
      k: nat, queue: seq<Delivery<M>>, acked: seq<(Delivery<M>, int)>, budget: nat)
    requires Progress(q, p, matches, clock, k, queue) && k <= budget
    requires p < |q| ==> matches(q[p]) && forall j :: 0 <= j < p ==> !matches(q[j])
    ensures var (got, left, _) := ControlLoop(queue, acked, matches, clock, k, budget);
            Routed(q, p, clock, budget, got, left)
    decreases budget - k
  {
    if k < budget && queue != [] {
      ProgressStep(q, p, matches, clock, k, queue);
      if matches(queue[0]) {
      } else if Stale(queue[0].enqueuedAt, clock(k)) {
        ControlLoopRoutes(q, p, matches, clock, k + 1, queue[1..], acked + [(queue[0], clock(k))], budget);
      } else {
        ControlLoopRoutes(q, p, matches, clock, k + 1, queue[1..] + [queue[0]], acked, budget);
      }
    }
  }

  lemma {:induction false} ControlLoopConserves<M>(
      q: seq<Delivery<M>>, matches: Delivery<M> -> bool, clock: nat -> int,
      k: nat, queue: seq<Delivery<M>>, acked: seq<(Delivery<M>, int)>, budget: nat)
    requires OnlyMoot(acked, matches) && Balanced(q, queue, acked) && k <= budget
    ensures var (got, left, moot) := ControlLoop(queue, acked, matches, clock, k, budget);
            Conserved(q, matches, got, left, moot)
    decreases budget - k
  {
    if k < budget && queue != [] {
      if matches(queue[0]) {
        BalancedHead(q, queue, acked);
      } else if Stale(queue[0].enqueuedAt, clock(k)) {
        BalancedAck(q, queue, acked, clock(k));
        ControlLoopConserves(q, matches, clock, k + 1, queue[1..], acked + [(queue[0], clock(k))], budget);
      } else {
        BalancedNack(q, queue, acked);
        ControlLoopConserves(q, matches, clock, k + 1, queue[1..] + [queue[0]], acked, budget);
      }
    }
  }

  /** What a control receive of `budget` tries has done. */
  ghost predicate ControlReceived<M>(
      q: seq<Delivery<M>>, matches: Delivery<M> -> bool, clock: nat -> int, budget: nat,
      got: Option<Delivery<M>>, queue: seq<Delivery<M>>, acked: seq<(Delivery<M>, int)>)
  {
    Routed(q, Position(q, matches), clock, budget, got, queue) && Conserved(q, matches, got, queue, acked)
  }

  /** For every queue, matching predicate, clock and budget. */
  lemma ControlLoopIsSound<M>(q: seq<Delivery<M>>, matches: Delivery<M> -> bool, clock: nat -> int, budget: nat)
    ensures var (got, left, moot) := ControlLoop(q, [], matches, clock, 0, budget);
            ControlReceived(q, matches, clock, budget, got, left, moot)
  {
    assert q[0..] + PutBack(q, clock, 0) == q;
    ControlLoopRoutes(q, Position(q, matches), matches, clock, 0, q, [], budget);
    ControlLoopConserves(q, matches, clock, 0, q, [], budget);
  }

  /**
   The targeting loop on a FIFO backend: what it returns, what it leaves queued and how many receives
   it makes, of at most `budget`.
   */
  function TargetLoop<M>(queue: seq<Delivery<M>>, matches: Delivery<M> -> bool, budget: nat)
    : (Option<Delivery<M>>, seq<Delivery<M>>, nat)
    decreases budget
  {
    if budget == 0 || queue == [] then (None, queue, 0)
    else if matches(queue[0]) then (Some(queue[0]), queue[1..], 1)
    else
      var (got, left, receives) := TargetLoop(queue[1..] + [queue[0]], matches, budget - 1);
      (got, left, receives + 1)
  }

  /** After `r` mismatched receives the queue is rotated by `r`; the rest of the loop runs from there. */
  lemma {:induction false} TargetLoopRotates<M>(q: seq<Delivery<M>>, matches: Delivery<M> -> bool, budget: nat, r: nat)
    requires r <= |q| && r <= budget && forall j :: 0 <= j < r ==> !matches(q[j])
    ensures var (got, left, receives) := TargetLoop(Rotate(q, r), matches, budget - r);
            TargetLoop(q, matches, budget) == (got, left, receives + r)
  {
    if r > 0 {
      TargetLoopRotates(q, matches, budget, r - 1);
      assert Rotate(q, r) == Rotate(q, r - 1)[1..] + [q[r - 1]];
    } else {
      assert Rotate(q, 0) == q;
    }
  }

  lemma {:induction false} TargetLoopKeepsAll<M>(q: seq<Delivery<M>>, matches: Delivery<M> -> bool, budget: nat)
    ensures var (got, left, _) := TargetLoop(q, matches, budget);
            multiset(q) == multiset(left) + if got.Some? then multiset{got.value} else multiset{}
    decreases budget
  {
    if budget > 0 && q != [] {
      HeadFirst(q);
      if !matches(q[0]) { TargetLoopKeepsAll(q[1..] + [q[0]], matches, budget - 1); }
    }
  }

  lemma {:induction false} NoMatchNoResult<M>(q: seq<Delivery<M>>, matches: Delivery<M> -> bool, budget: nat)
    requires forall d :: d in q ==> !matches(d)
    ensures TargetLoop(q, matches, budget).0.None?
    decreases budget
  {
    if budget > 0 && q != [] {
      var rest := q[1..] + [q[0]];
      forall d | d in rest ensures d in q {}
      NoMatchNoResult(rest, matches, budget - 1);
    }
  }

  /**
   The loop returns exactly when its budget covers the first match, which is what it returns after one
   receive per delivery up to it; the deliveries behind the match come first in what it leaves, those
   ahead of it last.
   */
  lemma TargetLoopFindsFirst<M>(q: seq<Delivery<M>>, matches: Delivery<M> -> bool, budget: nat)
    ensures var p := Position(q, matches);
            var (got, left, receives) := TargetLoop(q, matches, budget);
            && (got.Some? <==> p < |q| && p < budget)
            && (got.Some? ==> got.value == q[p] && left == q[p + 1..] + q[..p] && receives == p + 1)
            && multiset(q) == multiset(left) + if got.Some? then multiset{got.value} else multiset{}
  {
    var p := Position(q, matches);
    TargetLoopKeepsAll(q, matches, budget);
    if p == |q| {
      NoMatchNoResult(q, matches, budget);
    } else if p < budget {
      TargetLoopRotates(q, matches, budget, p);
    } else {
      TargetLoopRotates(q, matches, budget, budget);
    }
  }

  class FifoBackend<M(==)> {
    var queue: seq<Delivery<M>>

    constructor (queue: seq<Delivery<M>>)
      ensures this.queue == queue
    {
      this.queue := queue;
    }

    method Receive() returns (d: Delivery<M>)
      requires queue != []
      modifies this
      ensures d == old(queue)[0] && queue == old(queue)[1..]
    {
      d, queue := queue[0], queue[1..];
    }

    method Nack(d: Delivery<M>)
      modifies this
      ensures queue == old(queue) + [d]
    {
      queue := queue + [d];
    }

    /**
     The default `receive_for`: it returns exactly when the budget covers the first match, after
     one receive per delivery ahead of it, and loses nothing. An empty queue is where it waits.
     */
    method ReceiveFor(matches: Delivery<M> -> bool, budget: nat)
      returns (got: Option<Delivery<M>>, receives: nat)
      modifies this
      ensures (got, queue, receives) == TargetLoop(old(queue), matches, budget)
      ensures var p := Position(old(queue), matches);
              got.Some? <==> p < |old(queue)| && p < budget
      ensures var p := Position(old(queue), matches);
              got.Some? ==>
                && got.value == old(queue)[p] && receives == p + 1 <= |old(queue)|
                && queue == old(queue)[p + 1..] + old(queue)[..p]
      ensures got.None? ==> multiset(queue) == multiset(old(queue))
    {
      TargetLoopFindsFirst(queue, matches, budget);
      got, receives := None, 0;
      while receives < budget && queue != []
        invariant receives <= budget
        invariant var (g, left, more) := TargetLoop(queue, matches, budget - receives);
                  (g, left, receives + more) == TargetLoop(old(queue), matches, budget)
      {
        var d := Receive();
        if matches(d) {
          return Some(d), receives + 1;
        }
        Nack(d);
        receives := receives + 1;
      }
    }

    /**
     The default `receive_control_for`, reading the clock once per receive: the same first match,
     whatever its age; the mismatches ahead of it go back to the tail in order, except that one past
     its ttl is acked. Nothing else is acked and nothing is lost.
     */
    method ReceiveControlFor(matches: Delivery<M> -> bool, clock: nat -> int, budget: nat)
      returns (got: Option<Delivery<M>>, acked: seq<(Delivery<M>, int)>)
      modifies this
      ensures (got, queue, acked) == ControlLoop(old(queue), [], matches, clock, 0, budget)
      ensures ControlReceived(old(queue), matches, clock, budget, got, queue, acked)
    {
      ControlLoopIsSound(queue, matches, clock, budget);
      got, acked := None, [];
      var k := 0;
      while k < budget && queue != []
        invariant k <= budget
        invariant ControlLoop(queue, acked, matches, clock, k, budget)
               == ControlLoop(old(queue), [], matches, clock, 0, budget)
      {
        var d := Receive();
        if matches(d) {
          return Some(d), acked;
        }
        if Stale(d.enqueuedAt, clock(k)) {
          acked := acked + [(d, clock(k))];
        } else {
          Nack(d);
        }
        k := k + 1;
      }
    }
  }

  /**
   The in-memory `receive_for` refines the default loop: run on the queue as it stands after the
   reclaim, with a budget that reaches the end, the loop hands out the same delivery, or none, and
   leaves the same deliveries queued.
   */
  lemma ScanRefinesDefaultLoop<M>(
      c: Chan<M>, now: int, lease: nat, order: seq<nat>, matches: Delivery<M> -> bool, budget: nat)
    requires Reclaim(c, order).policy.Deduped? && budget >= |Reclaim(c, order).queue|
    ensures var (t, got) := Scan(c, now, lease, order, matches);
            var (looped, left, _) := TargetLoop(Reclaim(c, order).queue, matches, budget);
            got == looped && multiset(t.queue) == multiset(left)
  {
    var q := Reclaim(c, order).queue;
    var p := Position(q, matches);
    TargetLoopFindsFirst(q, matches, budget);
    if p < |q| {
      assert multiset(q[..p] + q[p + 1..]) == multiset(q[p + 1..] + q[..p]);
    }
  }

  // ---- the loop on a backend that requeues at the head ----

  /** Receive the head, check its body, nack: as the in-memory channel itself would do it. */
  function HeadLoop<M>(c: Chan<M>, now: int, lease: nat, wants: M -> bool, budget: nat)
    : (Option<Delivery<M>>, Chan<M>)
    decreases budget
  {
    if budget == 0 then (None, c)
    else
      var (t, got) := Scan(c, now, lease, [], (_: Delivery<M>) => true);
      if got.None? then (None, t)
      else if wants(got.value.body) then (got, t)
      else HeadLoop(Nack(t, got.value.id), now, lease, wants, budget - 1)
  }

  /** A receive and a nack bring the same message back to the front, under a new id. */
  lemma HeadComesBack<M>(c: Chan<M>, now: int, lease: nat)
    requires c.policy.Deduped? && c.queue != [] && c.queue[0].id !in c.inflight
    ensures var (t, got) := Scan(c, now, lease, [], (_: Delivery<M>) => true);
            && got == Some(c.queue[0])
            && Nack(t, c.queue[0].id)
               == c.(queue := [c.queue[0].(id := c.nextId)] + c.queue[1..], nextId := c.nextId + 1)
  {
    var any := (_: Delivery<M>) => true;
    assert Position(c.queue, any) == 0;
    var t := Scan(c, now, lease, [], any).0;
    assert t.inflight - {c.queue[0].id} == c.inflight;
    assert t.queue == c.queue[1..];
  }

  /**
   With head requeueing, and nothing expiring, the loop returns if and only if the delivery it meets
   first matches: a mismatched head blocks every delivery behind it, whatever the budget.
   */
  lemma {:induction false} HeadRequeueBlocksDefaultLoop<M>(
      c: Chan<M>, now: int, lease: nat, wants: M -> bool, budget: nat)
    requires c.policy.Deduped? && c.queue != [] && c.queue[0].id !in c.inflight
    requires forall id <- c.inflight :: id < c.nextId
    ensures HeadLoop(c, now, lease, wants, budget).0.Some? <==> budget > 0 && wants(c.queue[0].body)
    decreases budget
  {
    if budget > 0 {
      HeadComesBack(c, now, lease);
      if !wants(c.queue[0].body) {
        var back := c.(queue := [c.queue[0].(id := c.nextId)] + c.queue[1..], nextId := c.nextId + 1);
        HeadRequeueBlocksDefaultLoop(back, now, lease, wants, budget - 1);
      }
    }
  }
}
