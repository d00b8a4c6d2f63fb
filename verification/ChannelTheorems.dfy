/**
 What a run of a leased channel guarantees, for every sequence of publishes, receives, acks and
 nacks, with every order in which expired leases may be reclaimed.
 */
module ChannelTheorems {
  import opened Wrappers
  import opened Channel
  import opened ChannelRuns

  function Exec<M>(policy: Policy, events: seq<Event<M>>, hash: M -> string): Sys<M> {
    if events == [] then Start(policy)
    else Next(Exec(policy, events[..|events| - 1], hash), events[|events| - 1], hash)
  }

  /** What the caller of event `e` is told. */
  function Result<M>(c: Chan<M>, e: Event<M>, hash: M -> string): Outcome<M> {
    match e
    case PublishEvent(m) => if Accepts(c, m, hash) then Accepted else Duplicate
    case ReceiveEvent(now, lease, order, matches) =>
      var got := Scan(c, now, lease, order, matches).1;
      if got.Some? then Handed(got.value) else Nothing
    case AckEvent(id) => if id in c.inflight then Settled(id) else UnknownDelivery
    case NackEvent(id) => if id in c.inflight then Settled(id) else UnknownDelivery
  }

  function ResultAt<M>(policy: Policy, events: seq<Event<M>>, hash: M -> string, k: nat): Outcome<M>
    requires k < |events|
  {
    Result(Exec(policy, events[..k], hash).chan, events[k], hash)
  }

  lemma {:induction false} RunKeeps<M>(policy: Policy, events: seq<Event<M>>, hash: M -> string)
    ensures Inv(Exec(policy, events, hash))
    ensures Exec(policy, events, hash).chan.policy == policy
  {
    if events != [] {
      var before := events[..|events| - 1];
      RunKeeps(policy, before, hash);
      StepKeeps(Exec(policy, before, hash), events[|events| - 1], hash);
      PolicyFixed(Exec(policy, before, hash), events[|events| - 1], hash);
    }
  }

  lemma {:induction false} PolicyFixed<M>(s: Sys<M>, e: Event<M>, hash: M -> string)
    requires Inv(s)
    ensures Next(s, e, hash).chan.policy == s.chan.policy
  {
    if e.ReceiveEvent? { ReclaimFrame(s, e.order); }
  }

  /** What a reclaim of `order` leaves as it was. */
  ghost predicate Framed<M>(s: Sys<M>, t: Sys<M>, order: seq<nat>) {
    && t.chan.policy == s.chan.policy && t.handed == s.handed && t.settled == s.settled
    && |t.log| == |s.log| && |s.origin| <= |t.origin|
    && (forall i :: 0 <= i < |s.log| ==> t.log[i].first == s.log[i].first)
    && (forall i :: 0 <= i < |s.log| ==>
          if s.log[i].fate.Live? then t.log[i].fate.Live? else t.log[i].fate == s.log[i].fate)
    && (forall id :: id in t.chan.inflight <==> id in s.chan.inflight && id !in order)
    && (forall id: nat :: Queued(t.chan, id) ==> Queued(s.chan, id) || id >= |s.origin|)
  }

  lemma FramesCompose<M>(s: Sys<M>, r: Sys<M>, t: Sys<M>, id: nat, rest: seq<nat>)
    requires Framed(s, r, [id]) && Framed(r, t, rest)
    ensures Framed(s, t, [id] + rest)
  {
  }

  lemma ReclaimFrame<M>(s: Sys<M>, order: seq<nat>)
    requires Inv(s)
    ensures Framed(s, SysReclaim(s, order), order)
    decreases |order|
  {
    if order != [] {
      assert order == [order[0]] + order[1..];
      if order[0] in s.chan.inflight {
        RequeueKeeps(s, order[0]);
        ReclaimFrame(SysRequeue(s, order[0]), order[1..]);
        FramesCompose(s, SysRequeue(s, order[0]), SysReclaim(s, order), order[0], order[1..]);
      } else {
        ReclaimFrame(s, order[1..]);
      }
    }
  }

  // ---- the channel invariant, read off the channel itself ----

  ghost predicate Held<M>(c: Chan<M>, d: Delivery<M>) {
    d in c.queue || (d.id in c.inflight && c.inflight[d.id].delivery == d)
  }

  lemma HeldAreDistinct<M>(events: seq<Event<M>>, hash: M -> string)
    ensures var c := Exec(Deduped, events, hash).chan;
            && (forall d, e :: Held(c, d) && Held(c, e) && d != e ==> d.key != e.key && d.id != e.id)
            && (forall d :: Held(c, d) ==> d.key in c.dedupe)
  {
    var s := Exec(Deduped, events, hash);
    RunKeeps(Deduped, events, hash);
    forall d | Held(s.chan, d) ensures Carries(s, d) && d.key in s.chan.dedupe {
      HeldIsCarried(s, d);
    }
  }

  lemma HeldIsCarried<M>(s: Sys<M>, d: Delivery<M>)
    requires Inv(s) && Held(s.chan, d)
    ensures Carries(s, d) && (s.chan.policy.Deduped? ==> d.key in s.chan.dedupe)
  {
    assert s.log[s.origin[d.id]].first.key in LiveKeys(s.log);
  }

  lemma LiveKeyIsHeld<M>(s: Sys<M>, key: string)
    requires Inv(s) && s.chan.policy.Deduped? && key in s.chan.dedupe
    ensures exists d :: Held(s.chan, d) && d.key == key
  {
    var i :| 0 <= i < |s.log| && s.log[i].fate.Live? && s.log[i].first.key == key;
    assert Located(s, i);
    var id := s.log[i].fate.id;
    if id in s.chan.inflight {
      assert Held(s.chan, s.chan.inflight[id].delivery) && Carries(s, s.chan.inflight[id].delivery);
    } else {
      var d :| d in s.chan.queue && d.id == id;
      assert Held(s.chan, d) && Carries(s, d);
    }
  }

  /**
   After any run of a deduped channel the dedupe set is exactly the keys over queue and in-flight
   map, no two held deliveries share a key or an id, and a lease is stored under its own id.
   */
  lemma DedupeIsExact<M>(events: seq<Event<M>>, hash: M -> string)
    ensures var c := Exec(Deduped, events, hash).chan;
            && (forall key :: key in c.dedupe <==> exists d :: Held(c, d) && d.key == key)
            && (forall d, e :: Held(c, d) && Held(c, e) && d != e ==> d.key != e.key && d.id != e.id)
            && (forall id :: id in c.inflight ==> c.inflight[id].delivery.id == id)
            && Distinct(c.queue)
  {
    var s := Exec(Deduped, events, hash);
    RunKeeps(Deduped, events, hash);
    HeldAreDistinct(events, hash);
    forall key | key in s.chan.dedupe ensures exists d :: Held(s.chan, d) && d.key == key {
      LiveKeyIsHeld(s, key);
    }
  }

  /** A publish succeeds exactly when no held delivery has its key. */
  lemma PublishSucceedsIffKeyNotLive<M>(events: seq<Event<M>>, m: Message<M>, hash: M -> string)
    ensures var c := Exec(Deduped, events, hash).chan;
            Accepts(c, m, hash) <==> forall d :: Held(c, d) ==> d.key != KeyOrHash(m, hash)
  {
    var c := Exec(Deduped, events, hash).chan;
    RunKeeps(Deduped, events, hash);
    DedupeIsExact(events, hash);
    if KeyOrHash(m, hash) in c.dedupe {
      var d :| Held(c, d) && d.key == KeyOrHash(m, hash);
    }
  }

  // ---- conservation ----

  /** The accepted messages one event can finish, and the only ways it can finish them. */
  ghost predicate FateMoves<M>(s: Sys<M>, t: Sys<M>, e: Event<M>) {
    && |s.log| <= |t.log|
    && forall i :: 0 <= i < |s.log| ==>
      && t.log[i].first == s.log[i].first
      && match s.log[i].fate
         case Live(id) =>
           || t.log[i].fate.Live?
           || (t.log[i].fate == Acked && e == AckEvent(id) && id in s.chan.inflight)
           || (e.ReceiveEvent? && t.log[i].fate == Dropped(e.now) && s.chan.policy.Expiring?
               && e.now - s.log[i].first.enqueuedAt >= 300_000)
         case _ => t.log[i].fate == s.log[i].fate
  }

  lemma {:induction false} StepMovesFates<M>(s: Sys<M>, e: Event<M>, hash: M -> string)
    requires Inv(s)
    ensures FateMoves(s, Next(s, e, hash), e)
    ensures |Next(s, e, hash).log| == |s.log| + if Result(s.chan, e, hash).Accepted? then 1 else 0
  {
    match e
    case PublishEvent(m) =>
    case ReceiveEvent(now, lease, order, matches) => ReclaimFrame(s, order);
    case AckEvent(id) =>
      if id in s.chan.inflight {
        assert Carries(s, s.chan.inflight[id].delivery);
        assert s.log[s.origin[id]].fate == Live(id);
      }
    case NackEvent(id) =>
      if id in s.chan.inflight { assert Carries(s, s.chan.inflight[id].delivery); }
  }

  ghost predicate HeldFor<M>(s: Sys<M>, i: nat, d: Delivery<M>) {
    Held(s.chan, d) && d.id < |s.origin| && s.origin[d.id] == i
  }

  ghost predicate InOnePlace<M(!new)>(s: Sys<M>, i: nat)
    requires i < |s.log|
  {
    var first := s.log[i].first;
    match s.log[i].fate
    case Live(id) => HeldFor(s, i, first.(id := id)) && forall d :: HeldFor(s, i, d) ==> d == first.(id := id)
    case Acked => forall d :: !HeldFor(s, i, d)
    case Dropped(at) =>
      s.chan.policy.Expiring? && at - first.enqueuedAt >= 300_000 && forall d :: !HeldFor(s, i, d)
  }

  /**
   After any run every accepted message is in exactly one of four places: queued or in flight, under
   exactly one delivery id and with its body, key and publish time intact, acked, or (controls only)
   dropped at an age of at least the ttl. Nothing else is held.
   */
  lemma AcceptedIsConserved<M(!new)>(policy: Policy, events: seq<Event<M>>, hash: M -> string)
    ensures var s := Exec(policy, events, hash);
            && (forall i :: 0 <= i < |s.log| ==> InOnePlace(s, i))
            && (forall d :: Held(s.chan, d) ==> exists i :: 0 <= i < |s.log| && HeldFor(s, i, d))
  {
    var s := Exec(policy, events, hash);
    RunKeeps(policy, events, hash);
    forall i | 0 <= i < |s.log| ensures InOnePlace(s, i) {
      forall d | HeldFor(s, i, d) ensures Carries(s, d) {}
      assert Located(s, i);
      if s.log[i].fate.Live? {
        var id := s.log[i].fate.id;
        if id in s.chan.inflight {
          assert Carries(s, s.chan.inflight[id].delivery);
          assert HeldFor(s, i, s.chan.inflight[id].delivery);
        } else {
          var d :| d in s.chan.queue && d.id == id;
          assert Carries(s, d) && HeldFor(s, i, d);
        }
      }
    }
    forall d | Held(s.chan, d) ensures exists i :: 0 <= i < |s.log| && HeldFor(s, i, d) {
      assert Carries(s, d) && HeldFor(s, s.origin[d.id], d);
    }
  }

  /** A delivery id never changes the message it stands for. */
  lemma {:induction false} StepKeepsOrigins<M>(s: Sys<M>, e: Event<M>, hash: M -> string)
    requires Inv(s)
    ensures s.origin <= Next(s, e, hash).origin
  {
    if e.ReceiveEvent? { ReclaimKeepsOrigins(s, e.order); }
  }

  lemma ReclaimKeepsOrigins<M>(s: Sys<M>, order: seq<nat>)
    ensures s.origin <= SysReclaim(s, order).origin
    decreases |order|
  {
    if order != [] {
      ReclaimKeepsOrigins(if Tracked(s, order[0]) then SysRequeue(s, order[0]) else s, order[1..]);
    }
  }

  // ---- delivery-id fencing ----

  ghost predicate Outstanding<M>(c: Chan<M>, id: nat) {
    id in c.inflight || Queued(c, id)
  }

  /** The history only grows, and an issued id that is not outstanding never is again. */
  ghost predicate Grown<M>(s: Sys<M>, t: Sys<M>) {
    && s.handed <= t.handed && s.settled <= t.settled && |s.origin| <= |t.origin|
    && forall id: nat :: Outstanding(t.chan, id) ==> Outstanding(s.chan, id) || id >= |s.origin|
  }

  ghost predicate FencedStep<M>(s: Sys<M>, t: Sys<M>, r: Outcome<M>) {
    && Grown(s, t)
    && match r
       case Handed(d) => d.id !in s.handed && d.id in t.handed && d.id in t.chan.inflight && d.id < |t.origin|
       case Settled(id) => id in s.handed && id !in s.settled && id in t.settled
       case _ => true
  }

  lemma SweepFences<M>(s: Sys<M>, order: seq<nat>, now: int)
    requires Inv(s)
    ensures var t := SysDrop(SysReclaim(s, order), now);
            && Inv(t) && t.handed == s.handed && t.settled == s.settled && Grown(s, t)
            && t.chan == DropStale(Reclaim(s.chan, order), now)
  {
    var r := SysReclaim(s, order);
    ReclaimFrame(s, order);
    SweepKeeps(s, now, order);
    RetainedIsFilter(r.chan.queue, now);
    var t := SysDrop(r, now);
    forall id: nat | Queued(t.chan, id) ensures Queued(r.chan, id) {
      var d :| d in t.chan.queue && d.id == id;
      assert d in r.chan.queue;
    }
  }

  lemma {:induction false} ReceiveFences<M>(
      s: Sys<M>, now: int, lease: nat, order: seq<nat>, matches: Delivery<M> -> bool, hash: M -> string)
    requires Inv(s)
    ensures var e := ReceiveEvent(now, lease, order, matches);
            FencedStep(s, Next(s, e, hash), Result(s.chan, e, hash))
  {
    SweepFences(s, order, now);
  }

  /** One event: ids only appear fresh, go out once, and settle once. */
  lemma {:induction false} StepFences<M>(s: Sys<M>, e: Event<M>, hash: M -> string)
    requires Inv(s)
    ensures FencedStep(s, Next(s, e, hash), Result(s.chan, e, hash))
  {
    if e.ReceiveEvent? { ReceiveFences(s, e.now, e.lease, e.order, e.matches, hash); }
  }

  lemma {:induction false} HistoryGrows<M>(
      policy: Policy, events: seq<Event<M>>, hash: M -> string, i: nat, j: nat)
    requires i <= j <= |events|
    ensures Grown(Exec(policy, events[..i], hash), Exec(policy, events[..j], hash))
    decreases j
  {
    if i < j {
      HistoryGrows(policy, events, hash, i, j - 1);
      OneMoreGrows(policy, events, hash, j - 1);
    }
  }

  lemma OneMoreGrows<M>(policy: Policy, events: seq<Event<M>>, hash: M -> string, k: nat)
    requires k < |events|
    ensures Grown(Exec(policy, events[..k], hash), Exec(policy, events[..k + 1], hash))
  {
    OneMore(policy, events, hash, k);
  }

  lemma OneMore<M>(policy: Policy, events: seq<Event<M>>, hash: M -> string, k: nat)
    requires k < |events|
    ensures var s := Exec(policy, events[..k], hash);
            && Inv(s) && Exec(policy, events[..k + 1], hash) == Next(s, events[k], hash)
            && FencedStep(s, Next(s, events[k], hash), ResultAt(policy, events, hash, k))
  {
    assert events[..k + 1][..k] == events[..k];
    RunKeeps(policy, events[..k], hash);
    StepFences(Exec(policy, events[..k], hash), events[k], hash);
  }

  /**
   Over every run a delivery id is handed out at most once and settled at most once, and only after
   it was handed out.
   */
  lemma DeliveryIdsAreFenced<M>(
      policy: Policy, events: seq<Event<M>>, hash: M -> string, i: nat, j: nat)
    requires i < j < |events|
    ensures var a, b := ResultAt(policy, events, hash, i), ResultAt(policy, events, hash, j);
            && !(a.Handed? && b.Handed? && a.delivery.id == b.delivery.id)
            && !(a.Settled? && b.Settled? && a.id == b.id)
            && !(a.Settled? && b.Handed? && a.id == b.delivery.id)
  {
    OneMore(policy, events, hash, i);
    HistoryGrows(policy, events, hash, i + 1, j);
    OneMore(policy, events, hash, j);
  }

  /** Once an issued id is neither queued nor in flight, every later ack or nack of it is refused. */
  lemma DeadIdsStayDead<M>(
      policy: Policy, events: seq<Event<M>>, hash: M -> string, i: nat, j: nat, id: nat)
    requires i <= j < |events|
    requires id < |Exec(policy, events[..i], hash).origin|
    requires !Outstanding(Exec(policy, events[..i], hash).chan, id)
    requires events[j] == AckEvent(id) || events[j] == NackEvent(id)
    ensures ResultAt(policy, events, hash, j) == UnknownDelivery
  {
    HistoryGrows(policy, events, hash, i, j);
  }

  /** The calls that take id `x` out of flight: its own ack or nack, or a reclaim. */
  predicate Retires<M>(e: Event<M>, x: nat) {
    match e
    case PublishEvent(_) => false
    case ReceiveEvent(_, _, order, _) => x in order
    case AckEvent(id) => id == x
    case NackEvent(id) => id == x
  }

  /** No call strictly between the two takes id `x` out of flight. */
  ghost predicate NotRetired<M>(events: seq<Event<M>>, x: nat, i: nat, j: nat)
    requires j <= |events|
  {
    forall k :: i < k < j ==> !Retires(events[k], x)
  }

  lemma {:induction false} StepRetires<M>(s: Sys<M>, e: Event<M>, hash: M -> string, x: nat)
    requires Inv(s) && x in s.handed
    ensures x in Next(s, e, hash).chan.inflight <==> x in s.chan.inflight && !Retires(e, x)
  {
    StepKeeps(s, e, hash);
    if e.ReceiveEvent? {
      ReclaimFrame(s, e.order);
      SweepKeeps(s, e.now, e.order);
      var swept := SysDrop(SysReclaim(s, e.order), e.now);
      var p := Position(swept.chan.queue, e.matches);
      if p < |swept.chan.queue| { assert swept.chan.queue[p] in swept.chan.queue; }
    }
  }

  /**
   Neither the consumer's name nor the lease time decides an ack. A handed-out id can be acked or
   nacked exactly until an ack, nack or reclaim of that id, however late that is.
   */
  lemma {:induction false} SettlesIffNotRetired<M>(
      policy: Policy, events: seq<Event<M>>, hash: M -> string, i: nat, j: nat)
    requires i < j < |events| && ResultAt(policy, events, hash, i).Handed?
    requires var id := ResultAt(policy, events, hash, i).delivery.id;
             events[j] == AckEvent(id) || events[j] == NackEvent(id)
    ensures var id := ResultAt(policy, events, hash, i).delivery.id;
            ResultAt(policy, events, hash, j) == Settled(id) <==> NotRetired(events, id, i, j)
  {
    var x := ResultAt(policy, events, hash, i).delivery.id;
    InFlightUntilRetired(policy, events, hash, i, j, x);
  }

  lemma {:induction false} InFlightUntilRetired<M>(
      policy: Policy, events: seq<Event<M>>, hash: M -> string, i: nat, j: nat, x: nat)
    requires i < j <= |events| && ResultAt(policy, events, hash, i).Handed?
    requires x == ResultAt(policy, events, hash, i).delivery.id
    ensures var t := Exec(policy, events[..j], hash);
            x in t.handed && (x in t.chan.inflight <==> NotRetired(events, x, i, j))
    decreases j
  {
    if i == j - 1 {
      HandedIsInFlight(policy, events, hash, i);
    } else {
      InFlightUntilRetired(policy, events, hash, i, j - 1, x);
      OneCallRetires(policy, events, hash, j - 1, x);
      assert NotRetired(events, x, i, j) <==> NotRetired(events, x, i, j - 1) && !Retires(events[j - 1], x);
    }
  }

  lemma HandedIsInFlight<M>(policy: Policy, events: seq<Event<M>>, hash: M -> string, i: nat)
    requires i < |events| && ResultAt(policy, events, hash, i).Handed?
    ensures var t, x := Exec(policy, events[..i + 1], hash), ResultAt(policy, events, hash, i).delivery.id;
            x in t.handed && x in t.chan.inflight
  {
    OneMore(policy, events, hash, i);
  }

  lemma OneCallRetires<M>(policy: Policy, events: seq<Event<M>>, hash: M -> string, k: nat, x: nat)
    requires k < |events| && x in Exec(policy, events[..k], hash).handed
    ensures var s, t := Exec(policy, events[..k], hash), Exec(policy, events[..k + 1], hash);
            x in t.handed && (x in t.chan.inflight <==> x in s.chan.inflight && !Retires(events[k], x))
  {
    OneMore(policy, events, hash, k);
    StepRetires(Exec(policy, events[..k], hash), events[k], hash, x);
  }

  // ---- routing and the control ttl ----

  /** The delivery at `p` is the first one of `queue` accepted by `matches`. */
  ghost predicate FirstMatch<M>(queue: seq<Delivery<M>>, matches: Delivery<M> -> bool, p: nat) {
    p < |queue| && matches(queue[p]) && forall k :: 0 <= k < p ==> !matches(queue[k])
  }

  /**
   A receive hands out the first match of the swept queue, if there is one, and leaves the others in
   order.
   */
  lemma ReceiveTakesFirstMatch<M>(
      c: Chan<M>, now: int, lease: nat, order: seq<nat>, matches: Delivery<M> -> bool)
    returns (p: nat)
    ensures var swept := DropStale(Reclaim(c, order), now).queue;
            var (t, got) := Scan(c, now, lease, order, matches);
            if got.None? then t.queue == swept && forall k :: 0 <= k < |swept| ==> !matches(swept[k])
            else
              && FirstMatch(swept, matches, p) && swept[p] == got.value
              && t.queue == swept[..p] + swept[p + 1..]
              && got.value.id in t.inflight && t.inflight[got.value.id] == Leased(got.value, now + lease)
  {
    p := Position(DropStale(Reclaim(c, order), now).queue, matches);
  }

  /** On the control channel nothing past the ttl is handed out, or left in the queue. */
  lemma ReceiveDropsStale<M>(
      c: Chan<M>, now: int, lease: nat, order: seq<nat>, matches: Delivery<M> -> bool)
    requires Reclaim(c, order).policy.Expiring?
    ensures var (t, got) := Scan(c, now, lease, order, matches);
            && (got.Some? ==> now - got.value.enqueuedAt < 300_000)
            && forall d :: d in t.queue ==> now - d.enqueuedAt < 300_000
  {
    var swept := DropStale(Reclaim(c, order), now).queue;
    RetainedIsFilter(Reclaim(c, order).queue, now);
    var p := ReceiveTakesFirstMatch(c, now, lease, order, matches);
    var (t, got) := Scan(c, now, lease, order, matches);
    if got.Some? {
      assert swept[p] in swept;
      forall d | d in t.queue ensures d in swept {
        if d in swept[..p] {} else { assert d in swept[p + 1..]; }
      }
    }
  }

  /** However often a control is nacked or reclaimed, it is never handed out past its ttl. */
  lemma ControlsExpireFromPublish<M>(events: seq<Event<M>>, hash: M -> string, k: nat)
    requires k < |events| && events[k].ReceiveEvent?
    requires ResultAt(Expiring, events, hash, k).Handed?
    ensures var s := Exec(Expiring, events[..k + 1], hash);
            var d := ResultAt(Expiring, events, hash, k).delivery;
            && d.id < |s.origin| && s.origin[d.id] < |s.log|
            && events[k].now - s.log[s.origin[d.id]].first.enqueuedAt < 300_000
  {
    var s := Exec(Expiring, events[..k], hash);
    assert events[..k + 1][..k] == events[..k];
    RunKeeps(Expiring, events[..k], hash);
    RunKeeps(Expiring, events[..k + 1], hash);
    var e := events[k];
    ReclaimFrame(s, e.order);
    ReclaimKeeps(s, e.order);
    ReceiveDropsStale(s.chan, e.now, e.lease, e.order, e.matches);
    StepKeeps(s, e, hash);
    var t := Exec(Expiring, events[..k + 1], hash);
    var d := ResultAt(Expiring, events, hash, k).delivery;
    assert Carries(t, t.chan.inflight[d.id].delivery);
  }
}
