/**
 The lease times of a channel. A receive reclaims exactly the leases whose deadline has come, so a
 consumer can tell from the clock how long its delivery is safe.
 */
module ChannelLeases {
  import opened Wrappers
  import opened Channel
  import opened ChannelRuns
  import opened ChannelTheorems

  /** Every receive reclaims the leases that have expired when it runs, in some order, and no others. */
  ghost predicate Timely<M>(policy: Policy, events: seq<Event<M>>, hash: M -> string) {
    forall k :: 0 <= k < |events| && events[k].ReceiveEvent? ==>
      ExpiredOrder(Exec(policy, events[..k], hash).chan, events[k].now, events[k].order)
  }

  // ---- deadlines ----

  lemma ReclaimKeepsLeases<M>(s: Sys<M>, order: seq<nat>, x: nat)
    requires Inv(s) && x in s.chan.inflight && x !in order
    ensures x in SysReclaim(s, order).chan.inflight
    ensures SysReclaim(s, order).chan.inflight[x] == s.chan.inflight[x]
    decreases |order|
  {
    if order != [] {
      assert order[0] in order && forall id :: id in order[1..] ==> id in order;
      if order[0] in s.chan.inflight {
        RequeueKeeps(s, order[0]);
        ReclaimKeepsLeases(SysRequeue(s, order[0]), order[1..], x);
      } else {
        ReclaimKeepsLeases(s, order[1..], x);
      }
    }
  }

  lemma TakeKeepsLease<M>(s: Sys<M>, p: nat, until: int, x: nat)
    requires Inv(s) && x in s.chan.inflight
    ensures p < |s.chan.queue| ==>
              && x in SysTake(s, p, until).chan.inflight
              && SysTake(s, p, until).chan.inflight[x] == s.chan.inflight[x]
  {
    if p < |s.chan.queue| { assert s.chan.queue[p] in s.chan.queue; }
  }

  /** Until a call retires it, a delivery in flight keeps its deadline. */
  lemma {:induction false} StepKeepsLease<M>(s: Sys<M>, e: Event<M>, hash: M -> string, x: nat)
    requires Inv(s) && x in s.chan.inflight && !Retires(e, x)
    ensures x in Next(s, e, hash).chan.inflight
    ensures Next(s, e, hash).chan.inflight[x] == s.chan.inflight[x]
  {
    if e.ReceiveEvent? {
      ReclaimKeepsLeases(s, e.order, x);
      SweepKeeps(s, e.now, e.order);
      var swept := SysDrop(SysReclaim(s, e.order), e.now);
      TakeKeepsLease(swept, Position(swept.chan.queue, e.matches), e.now + e.lease, x);
    }
  }

  /** The delivery handed out at `i` and when its lease ends. */
  function HandedAt<M>(policy: Policy, events: seq<Event<M>>, hash: M -> string, i: nat): Delivery<M>
    requires i < |events| && ResultAt(policy, events, hash, i).Handed?
  {
    ResultAt(policy, events, hash, i).delivery
  }

  function Deadline<M>(events: seq<Event<M>>, i: nat): int
    requires i < |events| && events[i].ReceiveEvent?
  {
    events[i].now + events[i].lease
  }

  lemma HandedWithDeadline<M>(policy: Policy, events: seq<Event<M>>, hash: M -> string, i: nat)
    requires i < |events| && ResultAt(policy, events, hash, i).Handed?
    ensures events[i].ReceiveEvent?
    ensures var t, d := Exec(policy, events[..i + 1], hash), HandedAt(policy, events, hash, i);
            d.id in t.chan.inflight && t.chan.inflight[d.id] == Leased(d, Deadline(events, i))
  {
    var s, e := Exec(policy, events[..i], hash), events[i];
    OneMore(policy, events, hash, i);
    StepKeeps(s, e, hash);
    var p := ReceiveTakesFirstMatch(s.chan, e.now, e.lease, e.order, e.matches);
  }

  /** What ends a consumer's hold on delivery `x`: its ack, its nack, or a receive at its deadline. */
  predicate Ends<M>(e: Event<M>, x: nat, until: int) {
    match e
    case PublishEvent(_) => false
    case ReceiveEvent(now, _, _, _) => now >= until
    case AckEvent(id) => id == x
    case NackEvent(id) => id == x
  }

  ghost predicate NotEnded<M>(events: seq<Event<M>>, x: nat, until: int, i: nat, j: nat)
    requires j <= |events|
  {
    forall k :: i < k < j ==> !Ends(events[k], x, until)
  }

  ghost predicate HeldUntil<M>(c: Chan<M>, x: nat, until: int) {
    x in c.inflight && c.inflight[x].until == until
  }

  lemma OneCallEnds<M>(policy: Policy, events: seq<Event<M>>, hash: M -> string, k: nat, x: nat, until: int)
    requires k < |events| && Timely(policy, events, hash)
    requires HeldUntil(Exec(policy, events[..k], hash).chan, x, until)
    ensures Retires(events[k], x) <==> Ends(events[k], x, until)
    ensures !Ends(events[k], x, until) ==> HeldUntil(Exec(policy, events[..k + 1], hash).chan, x, until)
  {
    OneMore(policy, events, hash, k);
    var s := Exec(policy, events[..k], hash);
    if events[k].ReceiveEvent? {
      assert ExpiredOrder(s.chan, events[k].now, events[k].order);
      assert x in events[k].order <==> x in Expired(s.chan.inflight, events[k].now);
    }
    if !Retires(events[k], x) { StepKeepsLease(s, events[k], hash, x); }
  }

  lemma {:induction false} HeldUntilEnded<M>(
      policy: Policy, events: seq<Event<M>>, hash: M -> string, i: nat, j: nat)
    requires i < j <= |events| && Timely(policy, events, hash) && ResultAt(policy, events, hash, i).Handed?
    ensures events[i].ReceiveEvent?
    ensures var x, until := HandedAt(policy, events, hash, i).id, Deadline(events, i);
            && (NotRetired(events, x, i, j) <==> NotEnded(events, x, until, i, j))
            && (NotEnded(events, x, until, i, j) ==> HeldUntil(Exec(policy, events[..j], hash).chan, x, until))
    decreases j
  {
    HandedWithDeadline(policy, events, hash, i);
    if i < j - 1 {
      var x, until := HandedAt(policy, events, hash, i).id, Deadline(events, i);
      HeldUntilEnded(policy, events, hash, i, j - 1);
      if NotEnded(events, x, until, i, j - 1) {
        OneCallEnds(policy, events, hash, j - 1, x, until);
      }
      assert NotRetired(events, x, i, j) <==> NotRetired(events, x, i, j - 1) && !Retires(events[j - 1], x);
      assert NotEnded(events, x, until, i, j)
        <==> NotEnded(events, x, until, i, j - 1) && !Ends(events[j - 1], x, until);
    }
  }

  /**
   An ack or nack succeeds if and only if, since the delivery was handed out, there has been no ack or
   nack of it and no receive at or after its deadline. It may itself come after the deadline.
   */
  lemma SettlesUntilReclaimed<M>(policy: Policy, events: seq<Event<M>>, hash: M -> string, i: nat, j: nat)
    requires i < j < |events| && Timely(policy, events, hash) && ResultAt(policy, events, hash, i).Handed?
    requires var id := HandedAt(policy, events, hash, i).id; events[j] == AckEvent(id) || events[j] == NackEvent(id)
    ensures events[i].ReceiveEvent?
    ensures var x, until := HandedAt(policy, events, hash, i).id, Deadline(events, i);
            ResultAt(policy, events, hash, j) == Settled(x) <==> NotEnded(events, x, until, i, j)
  {
    HeldUntilEnded(policy, events, hash, i, j);
    SettlesIffNotRetired(policy, events, hash, i, j);
  }

  // ---- exclusion ----

  lemma {:induction false} HistoryIsKept<M>(
      policy: Policy, events: seq<Event<M>>, hash: M -> string, i: nat, j: nat)
    requires i <= j <= |events|
    ensures var s, t := Exec(policy, events[..i], hash), Exec(policy, events[..j], hash);
            && s.origin <= t.origin && |s.log| <= |t.log|
            && forall m :: 0 <= m < |s.log| && !s.log[m].fate.Live? ==> t.log[m].fate == s.log[m].fate
    decreases j
  {
    if i < j {
      HistoryIsKept(policy, events, hash, i, j - 1);
      OneMore(policy, events, hash, j - 1);
      StepKeepsOrigins(Exec(policy, events[..j - 1], hash), events[j - 1], hash);
      StepMovesFates(Exec(policy, events[..j - 1], hash), events[j - 1], hash);
    }
  }

  lemma HandedIdIsKnown<M>(policy: Policy, events: seq<Event<M>>, hash: M -> string, i: nat)
    requires i < |events| && ResultAt(policy, events, hash, i).Handed?
    ensures HandedAt(policy, events, hash, i).id < |Exec(policy, events[..i + 1], hash).origin|
  {
    OneMore(policy, events, hash, i);
  }

  /** The accepted message that event `i` handed out. */
  function MessageAt<M>(policy: Policy, events: seq<Event<M>>, hash: M -> string, i: nat): nat
    requires i < |events| && ResultAt(policy, events, hash, i).Handed?
  {
    HandedIdIsKnown(policy, events, hash, i);
    Exec(policy, events[..i + 1], hash).origin[HandedAt(policy, events, hash, i).id]
  }

  lemma MessageStays<M>(policy: Policy, events: seq<Event<M>>, hash: M -> string, i: nat, j: nat)
    requires i < j <= |events| && ResultAt(policy, events, hash, i).Handed?
    ensures var x, t := HandedAt(policy, events, hash, i).id, Exec(policy, events[..j], hash);
            x < |t.origin| && t.origin[x] == MessageAt(policy, events, hash, i)
  {
    HandedIdIsKnown(policy, events, hash, i);
    HistoryIsKept(policy, events, hash, i + 1, j);
  }

  /** While a delivery is in flight its message is live under its id, and no other id carries it. */
  lemma FlightIsTheMessage<M>(
      policy: Policy, events: seq<Event<M>>, hash: M -> string, i: nat, j: nat)
    requires i < j <= |events| && ResultAt(policy, events, hash, i).Handed?
    requires HandedAt(policy, events, hash, i).id in Exec(policy, events[..j], hash).chan.inflight
    ensures var x, t := HandedAt(policy, events, hash, i).id, Exec(policy, events[..j], hash);
            && MessageAt(policy, events, hash, i) < |t.log|
            && t.log[MessageAt(policy, events, hash, i)].fate == Live(x)
  {
    MessageStays(policy, events, hash, i, j);
    RunKeeps(policy, events[..j], hash);
    var t := Exec(policy, events[..j], hash);
    assert Carries(t, t.chan.inflight[HandedAt(policy, events, hash, i).id].delivery);
  }

  lemma AckFinishes<M>(s: Sys<M>, x: nat, hash: M -> string)
    requires Inv(s) && x in s.chan.inflight
    ensures var t := Next(s, AckEvent(x), hash);
            x < |s.origin| && s.origin[x] < |t.log| && t.log[s.origin[x]].fate == Acked
  {
    AckKeeps(s, x);
  }

  lemma OneAck<M>(policy: Policy, events: seq<Event<M>>, hash: M -> string, k: nat, x: nat)
    requires k < |events| && events[k] == AckEvent(x) && x in Exec(policy, events[..k], hash).chan.inflight
    ensures var s, t := Exec(policy, events[..k], hash), Exec(policy, events[..k + 1], hash);
            x < |s.origin| && s.origin[x] < |t.log| && t.log[s.origin[x]].fate == Acked
  {
    OneMore(policy, events, hash, k);
    AckFinishes(Exec(policy, events[..k], hash), x, hash);
  }

  /** The ack of a delivery in flight finishes its message for good. */
  lemma AckedForGood<M>(
      policy: Policy, events: seq<Event<M>>, hash: M -> string, i: nat, k: nat, j: nat)
    requires i < k < j <= |events| && ResultAt(policy, events, hash, i).Handed?
    requires events[k] == AckEvent(HandedAt(policy, events, hash, i).id)
    requires HandedAt(policy, events, hash, i).id in Exec(policy, events[..k], hash).chan.inflight
    ensures var t := Exec(policy, events[..j], hash);
            MessageAt(policy, events, hash, i) < |t.log| && t.log[MessageAt(policy, events, hash, i)].fate == Acked
  {
    MessageStays(policy, events, hash, i, k);
    OneAck(policy, events, hash, k, HandedAt(policy, events, hash, i).id);
    HistoryIsKept(policy, events, hash, k + 1, j);
  }

  lemma {:induction false} FirstEnd<M>(events: seq<Event<M>>, x: nat, until: int, i: nat, j: nat) returns (k: nat)
    requires i < j <= |events| && !NotEnded(events, x, until, i, j)
    ensures i < k < j && Ends(events[k], x, until) && NotEnded(events, x, until, i, k)
    decreases j
  {
    if NotEnded(events, x, until, i, j - 1) {
      k := j - 1;
    } else {
      k := FirstEnd(events, x, until, i, j - 1);
    }
  }

  /** Until something ends its hold, a delivery carries its message. */
  lemma StillHeld<M>(policy: Policy, events: seq<Event<M>>, hash: M -> string, i: nat, j: nat)
    requires i < j <= |events| && Timely(policy, events, hash) && ResultAt(policy, events, hash, i).Handed?
    requires events[i].ReceiveEvent?
    requires NotEnded(events, HandedAt(policy, events, hash, i).id, Deadline(events, i), i, j)
    ensures var x, t := HandedAt(policy, events, hash, i).id, Exec(policy, events[..j], hash);
            && x in t.chan.inflight && MessageAt(policy, events, hash, i) < |t.log|
            && t.log[MessageAt(policy, events, hash, i)].fate == Live(x)
  {
    HeldUntilEnded(policy, events, hash, i, j);
    FlightIsTheMessage(policy, events, hash, i, j);
  }

  /** After a second handing out the message is live under the second id. */
  lemma SecondIsLive<M>(policy: Policy, events: seq<Event<M>>, hash: M -> string, i: nat, j: nat)
    requires i < j < |events|
    requires ResultAt(policy, events, hash, i).Handed? && ResultAt(policy, events, hash, j).Handed?
    requires MessageAt(policy, events, hash, i) == MessageAt(policy, events, hash, j)
    ensures var t := Exec(policy, events[..j + 1], hash);
            && MessageAt(policy, events, hash, i) < |t.log|
            && t.log[MessageAt(policy, events, hash, i)].fate == Live(HandedAt(policy, events, hash, j).id)
    ensures HandedAt(policy, events, hash, i).id != HandedAt(policy, events, hash, j).id
  {
    HandedWithDeadline(policy, events, hash, j);
    FlightIsTheMessage(policy, events, hash, j, j + 1);
    DeliveryIdsAreFenced(policy, events, hash, i, j);
  }

  /** Events `i` and `j` hand out the same message. */
  ghost predicate SameMessage<M>(policy: Policy, events: seq<Event<M>>, hash: M -> string, i: nat, j: nat)
    requires i < |events| && j < |events|
  {
    && ResultAt(policy, events, hash, i).Handed? && ResultAt(policy, events, hash, j).Handed?
    && MessageAt(policy, events, hash, i) == MessageAt(policy, events, hash, j)
  }

  lemma SomethingEnds<M>(policy: Policy, events: seq<Event<M>>, hash: M -> string, i: nat, j: nat)
    requires i < j < |events| && Timely(policy, events, hash) && SameMessage(policy, events, hash, i, j)
    requires events[i].ReceiveEvent?
    ensures !NotEnded(events, HandedAt(policy, events, hash, i).id, Deadline(events, i), i, j + 1)
  {
    SecondIsLive(policy, events, hash, i, j);
    if NotEnded(events, HandedAt(policy, events, hash, i).id, Deadline(events, i), i, j + 1) {
      StillHeld(policy, events, hash, i, j + 1);
    }
  }

  lemma AckIsNotWhatEnds<M>(policy: Policy, events: seq<Event<M>>, hash: M -> string, i: nat, k: nat, j: nat)
    requires i < k <= j < |events| && Timely(policy, events, hash) && SameMessage(policy, events, hash, i, j)
    requires events[i].ReceiveEvent?
    requires NotEnded(events, HandedAt(policy, events, hash, i).id, Deadline(events, i), i, k)
    ensures events[k] != AckEvent(HandedAt(policy, events, hash, i).id)
  {
    SecondIsLive(policy, events, hash, i, j);
    StillHeld(policy, events, hash, i, k);
    if events[k] == AckEvent(HandedAt(policy, events, hash, i).id) {
      AckedForGood(policy, events, hash, i, k, j + 1);
    }
  }

  /**
   Lease exclusion. A message handed out at `i` is handed out again at `j` only if its first consumer
   has nacked it, or a receive, this one or one in between, ran at or after the end of its lease.
   */
  lemma RedeliveryWaits<M>(policy: Policy, events: seq<Event<M>>, hash: M -> string, i: nat, j: nat)
    returns (k: nat)
    requires i < j < |events| && Timely(policy, events, hash) && SameMessage(policy, events, hash, i, j)
    ensures events[i].ReceiveEvent? && i < k <= j
    ensures || events[k] == NackEvent(HandedAt(policy, events, hash, i).id)
            || (events[k].ReceiveEvent? && events[k].now >= Deadline(events, i))
  {
    HandedWithDeadline(policy, events, hash, i);
    SomethingEnds(policy, events, hash, i, j);
    k := FirstEnd(events, HandedAt(policy, events, hash, i).id, Deadline(events, i), i, j + 1);
    AckIsNotWhatEnds(policy, events, hash, i, k, j);
  }
}
