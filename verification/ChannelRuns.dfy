/**
 Whole runs of a leased channel. The state is paired with a history: a log of the accepted messages
 with the fate of each, and the message every delivery id stands for. The invariant over that pair
 gives conservation, exact dedupe and delivery-id fencing for every interleaving of calls.
 */
module ChannelRuns {
  import opened Wrappers
  import opened Channel

  /** Where an accepted message is now. */
  datatype Fate = Live(id: nat) | Acked | Dropped(at: int)

  datatype Entry<M> = Entry(first: Delivery<M>, fate: Fate)

  datatype Sys<M> = Sys(
    chan: Chan<M>,
    log: seq<Entry<M>>,   // every message ever accepted
    origin: seq<nat>,     // delivery id -> the log entry it carries
    handed: set<nat>,     // delivery ids ever handed to a consumer
    settled: set<nat>)    // delivery ids successfully acked or nacked

  datatype Event<!M> =
    | PublishEvent(m: Message<M>)
    | ReceiveEvent(now: int, lease: nat, order: seq<nat>, matches: Delivery<M> -> bool)
    | AckEvent(id: nat)
    | NackEvent(id: nat)

  datatype Outcome<M> =
    | Accepted
    | Duplicate
    | Handed(delivery: Delivery<M>)
    | Nothing
    | Settled(id: nat)
    | UnknownDelivery

  function Start<M>(policy: Policy): Sys<M> {
    Sys(Empty(policy), [], [], {}, {})
  }

  // ---- one event ----

  function SysPublish<M>(s: Sys<M>, m: Message<M>, hash: M -> string): Sys<M> {
    if !Accepts(s.chan, m, hash) then s
    else
      var c := Publish(s.chan, m, hash);
      s.(chan := c,
         log := s.log + [Entry(c.queue[|s.chan.queue|], Live(s.chan.nextId))],
         origin := s.origin + [|s.log|])
  }

  /** The bookkeeping below never loses track of an in-flight id; `Inv` proves it. */
  predicate Tracked<M>(s: Sys<M>, id: nat) {
    id in s.chan.inflight && id < |s.origin| && s.origin[id] < |s.log|
  }

  function WithFate<M>(s: Sys<M>, id: nat, fate: Fate): seq<Entry<M>>
    requires Tracked(s, id)
  {
    s.log[s.origin[id] := s.log[s.origin[id]].(fate := fate)]
  }

  function SysRequeue<M>(s: Sys<M>, id: nat): Sys<M>
    requires Tracked(s, id)
  {
    s.(chan := Requeue(s.chan, id),
       log := WithFate(s, id, Live(s.chan.nextId)),
       origin := s.origin + [s.origin[id]])
  }

  function SysReclaim<M>(s: Sys<M>, order: seq<nat>): Sys<M>
    decreases |order|
  {
    if order == [] then s
    else SysReclaim(if Tracked(s, order[0]) then SysRequeue(s, order[0]) else s, order[1..])
  }

  predicate Expires<M>(s: Sys<M>, i: nat, now: int)
    requires i < |s.log|
  {
    && s.chan.policy.Expiring?
    && s.log[i].fate.Live? && s.log[i].fate.id !in s.chan.inflight
    && Stale(s.log[i].first.enqueuedAt, now)
  }

  function SysDrop<M>(s: Sys<M>, now: int): Sys<M> {
    s.(chan := DropStale(s.chan, now),
       log := seq(|s.log|, i requires 0 <= i < |s.log| =>
         if Expires(s, i, now) then s.log[i].(fate := Dropped(now)) else s.log[i]))
  }

  function SysTake<M>(s: Sys<M>, p: nat, until: int): Sys<M>
    requires p < |s.chan.queue|
  {
    s.(chan := Take(s.chan, p, until), handed := s.handed + {s.chan.queue[p].id})
  }

  function SysScan<M>(s: Sys<M>, now: int, lease: nat, order: seq<nat>, matches: Delivery<M> -> bool): Sys<M> {
    SysTakeFirst(SysDrop(SysReclaim(s, order), now), now + lease, matches)
  }

  function SysTakeFirst<M>(s: Sys<M>, until: int, matches: Delivery<M> -> bool): Sys<M> {
    var p := Position(s.chan.queue, matches);
    if p < |s.chan.queue| then SysTake(s, p, until) else s
  }

  function SysAck<M>(s: Sys<M>, id: nat): Sys<M> {
    if !Tracked(s, id) then s
    else s.(chan := Ack(s.chan, id), log := WithFate(s, id, Acked), settled := s.settled + {id})
  }

  function SysNack<M>(s: Sys<M>, id: nat): Sys<M> {
    if !Tracked(s, id) then s
    else SysRequeue(s, id).(settled := s.settled + {id})
  }

  function Next<M>(s: Sys<M>, e: Event<M>, hash: M -> string): Sys<M> {
    match e
    case PublishEvent(m) => SysPublish(s, m, hash)
    case ReceiveEvent(now, lease, order, matches) => SysScan(s, now, lease, order, matches)
    case AckEvent(id) => SysAck(s, id)
    case NackEvent(id) => SysNack(s, id)
  }

  // ---- the invariant ----

  ghost predicate Queued<M>(c: Chan<M>, id: nat) {
    exists d :: d in c.queue && d.id == id
  }

  ghost predicate Distinct<M>(queue: seq<Delivery<M>>) {
    forall i, j :: 0 <= i < j < |queue| ==> queue[i].id != queue[j].id
  }

  /** Delivery `d` is the one outstanding delivery of the message its id stands for, unaltered. */
  ghost predicate Carries<M>(s: Sys<M>, d: Delivery<M>) {
    && d.id < |s.origin| && s.origin[d.id] < |s.log|
    && s.log[s.origin[d.id]] == Entry(s.log[s.origin[d.id]].first, Live(d.id))
    && d == s.log[s.origin[d.id]].first.(id := d.id)
  }

  ghost predicate QueueSound<M>(s: Sys<M>) {
    && |s.origin| == s.chan.nextId
    && Distinct(s.chan.queue)
    && forall d :: d in s.chan.queue ==> Carries(s, d) && d.id !in s.chan.inflight && d.id !in s.handed
  }

  ghost predicate FlightSound<M>(s: Sys<M>) {
    forall id :: id in s.chan.inflight ==>
      s.chan.inflight[id].delivery.id == id && Carries(s, s.chan.inflight[id].delivery)
  }

  /** A live entry is where its fate says. */
  ghost predicate Located<M>(s: Sys<M>, i: nat)
    requires i < |s.log|
  {
    s.log[i].fate.Live? ==>
      && s.log[i].fate.id < |s.origin| && s.origin[s.log[i].fate.id] == i
      && (s.log[i].fate.id in s.chan.inflight || Queued(s.chan, s.log[i].fate.id))
  }

  ghost predicate Kept<M>(s: Sys<M>) {
    && (forall i :: 0 <= i < |s.log| ==> Located(s, i))
    && (forall i :: 0 <= i < |s.log| && s.log[i].fate.Dropped? ==>
          s.chan.policy.Expiring? && Stale(s.log[i].first.enqueuedAt, s.log[i].fate.at))
  }

  function LiveKeys<M>(log: seq<Entry<M>>): set<string> {
    set i | 0 <= i < |log| && log[i].fate.Live? :: log[i].first.key
  }

  ghost predicate Keyed<M>(s: Sys<M>) {
    s.chan.policy.Deduped? ==>
      && s.chan.dedupe == LiveKeys(s.log)
      && forall i, j :: 0 <= i < j < |s.log| && s.log[i].fate.Live? && s.log[j].fate.Live? ==>
        s.log[i].first.key != s.log[j].first.key
  }

  ghost predicate Fenced<M>(s: Sys<M>) {
    && (forall id :: id in s.handed ==> id < |s.origin|)
    && (forall id :: id in s.chan.inflight ==> id in s.handed && id !in s.settled)
    && s.settled <= s.handed
  }

  ghost predicate Inv<M>(s: Sys<M>) {
    QueueSound(s) && FlightSound(s) && Kept(s) && Keyed(s) && Fenced(s)
  }

  lemma PublishKeeps<M>(s: Sys<M>, m: Message<M>, hash: M -> string)
    requires Inv(s)
    ensures Inv(SysPublish(s, m, hash))
  {
    if Accepts(s.chan, m, hash) {
      var t := SysPublish(s, m, hash);
      var d := t.chan.queue[|s.chan.queue|];
      assert t.chan.queue == s.chan.queue + [d];
      assert QueueSound(t) by {
        forall e | e in t.chan.queue ensures Carries(t, e) && e.id !in t.chan.inflight && e.id !in t.handed {
          if e in s.chan.queue { assert Carries(s, e); }
        }
      }
      assert FlightSound(t) by {
        forall id | id in t.chan.inflight ensures Carries(t, t.chan.inflight[id].delivery) {
          assert Carries(s, s.chan.inflight[id].delivery);
        }
      }
      forall i | 0 <= i < |t.log| ensures Located(t, i) {
        if i < |s.log| {
          assert Located(s, i);
          if s.log[i].fate.Live? && s.log[i].fate.id !in s.chan.inflight {
            var e :| e in s.chan.queue && e.id == s.log[i].fate.id;
            assert e in t.chan.queue;
          }
        } else {
          assert d in t.chan.queue;
        }
      }
      assert Keyed(t) by {
        if t.chan.policy.Deduped? {
          forall i | 0 <= i < |s.log| && s.log[i].fate.Live? ensures s.log[i].first.key != d.key {
            assert s.log[i].first.key in LiveKeys(s.log);
          }
          forall k | k in t.chan.dedupe ensures k in LiveKeys(t.log) {
            if k in LiveKeys(s.log) {
              var i :| 0 <= i < |s.log| && s.log[i].fate.Live? && s.log[i].first.key == k;
              assert t.log[i] == s.log[i];
            } else {
              assert t.log[|s.log|].first.key == k;
            }
          }
        }
      }
    }
  }

  lemma RequeueKeepsLocated<M>(s: Sys<M>, id: nat, i: nat)
    requires Inv(s) && Tracked(s, id) && Carries(s, s.chan.inflight[id].delivery) && i < |s.log|
    ensures Located(SysRequeue(s, id), i)
  {
    var t := SysRequeue(s, id);
    assert Located(s, i);
    if i == s.origin[id] {
      assert t.chan.queue[0] in t.chan.queue;
    } else if s.log[i].fate.Live? && s.log[i].fate.id !in s.chan.inflight {
      var d :| d in s.chan.queue && d.id == s.log[i].fate.id;
      assert d in t.chan.queue;
    }
  }

  lemma RequeueKeeps<M>(s: Sys<M>, id: nat)
    requires Inv(s) && id in s.chan.inflight
    ensures Tracked(s, id) && Inv(SysRequeue(s, id))
  {
    assert Carries(s, s.chan.inflight[id].delivery);
    var t := SysRequeue(s, id);
    forall i | 0 <= i < |t.log| ensures Located(t, i) { RequeueKeepsLocated(s, id, i); }
    SameKeys(s.log, t.log);
  }

  /** Dedupe looks only at the keys of live entries, so a change of delivery id leaves it alone. */
  lemma SameKeys<M>(a: seq<Entry<M>>, b: seq<Entry<M>>)
    requires |a| == |b|
    requires forall i :: 0 <= i < |a| ==> a[i].first == b[i].first && a[i].fate.Live? == b[i].fate.Live?
    ensures LiveKeys(a) == LiveKeys(b)
  {
    forall k | k in LiveKeys(a) ensures k in LiveKeys(b) {
      var i :| 0 <= i < |a| && a[i].fate.Live? && a[i].first.key == k;
      assert b[i].first.key == k;
    }
    forall k | k in LiveKeys(b) ensures k in LiveKeys(a) {
      var i :| 0 <= i < |b| && b[i].fate.Live? && b[i].first.key == k;
      assert a[i].first.key == k;
    }
  }

  lemma ReclaimKeeps<M>(s: Sys<M>, order: seq<nat>)
    requires Inv(s)
    ensures Inv(SysReclaim(s, order))
    ensures SysReclaim(s, order).chan == Reclaim(s.chan, order)
    decreases |order|
  {
    if order != [] && order[0] in s.chan.inflight {
      RequeueKeeps(s, order[0]);
      ReclaimKeeps(SysRequeue(s, order[0]), order[1..]);
    } else if order != [] {
      ReclaimKeeps(s, order[1..]);
    }
  }

  lemma RetainedIsFilter<M>(queue: seq<Delivery<M>>, now: int)
    ensures forall d :: d in Retained(queue, now) ==> d in queue && !Stale(d.enqueuedAt, now)
    ensures forall d :: d in queue && !Stale(d.enqueuedAt, now) ==> d in Retained(queue, now)
    ensures Distinct(queue) ==> Distinct(Retained(queue, now))
  {
    if queue != [] {
      var head, rest := queue[0], Retained(queue[1..], now);
      RetainedIsFilter(queue[1..], now);
      assert queue == [head] + queue[1..];
      if Distinct(queue) {
        assert Distinct(queue[1..]);
        forall k | 0 <= k < |rest| ensures rest[k].id != head.id {
          assert rest[k] in rest;
          assert rest[k] in queue[1..];
        }
      }
    }
  }

  lemma DropKeeps<M>(s: Sys<M>, now: int)
    requires Inv(s)
    ensures Inv(SysDrop(s, now))
  {
    var t := SysDrop(s, now);
    if s.chan.policy.Expiring? {
      RetainedIsFilter(s.chan.queue, now);
      assert QueueSound(t) by {
        forall d | d in t.chan.queue ensures Carries(t, d) && d.id !in t.chan.inflight && d.id !in t.handed {
          assert Carries(s, d);
          assert !Expires(s, s.origin[d.id], now);
        }
      }
      assert FlightSound(t) by {
        forall id | id in t.chan.inflight ensures Carries(t, t.chan.inflight[id].delivery) {
          assert Carries(s, s.chan.inflight[id].delivery);
        }
      }
      forall i | 0 <= i < |t.log| ensures Located(t, i) {
        assert Located(s, i);
        if t.log[i].fate.Live? && s.log[i].fate.id !in s.chan.inflight {
          var d :| d in s.chan.queue && d.id == s.log[i].fate.id;
          assert Carries(s, d) && d in t.chan.queue;
        }
      }
    } else {
      assert t.log == s.log;
    }
  }

  lemma TakeKeeps<M>(s: Sys<M>, p: nat, until: int)
    requires Inv(s) && p < |s.chan.queue|
    ensures Inv(SysTake(s, p, until))
  {
    var t := SysTake(s, p, until);
    var got := s.chan.queue[p];
    assert got in s.chan.queue && Carries(s, got);
    assert QueueSound(t) by {
      forall d | d in t.chan.queue ensures Carries(t, d) && d.id !in t.chan.inflight && d.id !in t.handed {
        assert Carries(s, d);
      }
    }
    assert FlightSound(t) by {
      forall id | id in t.chan.inflight ensures Carries(t, t.chan.inflight[id].delivery) {
        if id != got.id { assert Carries(s, s.chan.inflight[id].delivery); }
      }
    }
    forall i | 0 <= i < |t.log| ensures Located(t, i) {
      assert Located(s, i);
      if s.log[i].fate.Live? && s.log[i].fate.id !in t.chan.inflight {
        var d :| d in s.chan.queue && d.id == s.log[i].fate.id;
        assert d in t.chan.queue;
      }
    }
  }

  lemma AckKeepsPlaces<M>(s: Sys<M>, id: nat)
    requires Inv(s) && Tracked(s, id) && Carries(s, s.chan.inflight[id].delivery)
    ensures QueueSound(SysAck(s, id)) && FlightSound(SysAck(s, id)) && Kept(SysAck(s, id))
  {
    var t := SysAck(s, id);
    forall d | d in t.chan.queue ensures Carries(t, d) { assert Carries(s, d); }
    forall k | k in t.chan.inflight ensures Carries(t, t.chan.inflight[k].delivery) {
      assert Carries(s, s.chan.inflight[k].delivery);
    }
    forall i | 0 <= i < |t.log| ensures Located(t, i) {
      assert Located(s, i);
      if t.log[i].fate.Live? && s.log[i].fate.id !in s.chan.inflight {
        var d :| d in s.chan.queue && d.id == s.log[i].fate.id;
        assert d in t.chan.queue;
      }
    }
  }

  lemma AckKeepsKeys<M>(s: Sys<M>, id: nat)
    requires Inv(s) && Tracked(s, id) && Carries(s, s.chan.inflight[id].delivery)
    ensures Keyed(SysAck(s, id))
  {
    var t := SysAck(s, id);
    if t.chan.policy.Deduped? {
      forall k | k in t.chan.dedupe ensures k in LiveKeys(t.log) {
        var i :| 0 <= i < |s.log| && s.log[i].fate.Live? && s.log[i].first.key == k;
        assert t.log[i] == s.log[i];
      }
      forall k | k in LiveKeys(t.log) ensures k in t.chan.dedupe {
        var i :| 0 <= i < |t.log| && t.log[i].fate.Live? && t.log[i].first.key == k;
        assert k in LiveKeys(s.log);
      }
    }
  }

  lemma AckKeeps<M>(s: Sys<M>, id: nat)
    requires Inv(s) && id in s.chan.inflight
    ensures Tracked(s, id) && Inv(SysAck(s, id))
  {
    assert Carries(s, s.chan.inflight[id].delivery);
    AckKeepsPlaces(s, id);
    AckKeepsKeys(s, id);
  }

  /** The reclaim and the drop that every receive starts with. */
  lemma SweepKeeps<M>(s: Sys<M>, now: int, order: seq<nat>)
    requires Inv(s)
    ensures var t := SysDrop(SysReclaim(s, order), now);
            Inv(t) && t.chan == DropStale(Reclaim(s.chan, order), now)
  {
    ReclaimKeeps(s, order);
    DropKeeps(SysReclaim(s, order), now);
  }

  lemma ScanMatches<M>(s: Sys<M>, now: int, lease: nat, order: seq<nat>, matches: Delivery<M> -> bool)
    requires SysDrop(SysReclaim(s, order), now).chan == DropStale(Reclaim(s.chan, order), now)
    ensures SysScan(s, now, lease, order, matches).chan == Scan(s.chan, now, lease, order, matches).0
  {
  }

  lemma TakeFirstKeeps<M>(s: Sys<M>, until: int, matches: Delivery<M> -> bool, t: Sys<M>)
    requires Inv(s) && t == SysTakeFirst(s, until, matches)
    ensures Inv(t)
  {
    var p := Position(s.chan.queue, matches);
    if p < |s.chan.queue| { TakeKeeps(s, p, until); }
  }

  lemma ScanKeeps<M>(s: Sys<M>, now: int, lease: nat, order: seq<nat>, matches: Delivery<M> -> bool)
    requires Inv(s)
    ensures Inv(SysScan(s, now, lease, order, matches))
    ensures SysScan(s, now, lease, order, matches).chan == Scan(s.chan, now, lease, order, matches).0
  {
    SweepKeeps(s, now, order);
    ScanMatches(s, now, lease, order, matches);
    var swept, t := SysDrop(SysReclaim(s, order), now), SysScan(s, now, lease, order, matches);
    TakeFirstKeeps(swept, now + lease, matches, t);
  }

  lemma NackKeeps<M>(s: Sys<M>, id: nat)
    requires Inv(s) && id in s.chan.inflight
    ensures Inv(SysNack(s, id))
    ensures SysNack(s, id).chan == Requeue(s.chan, id)
  {
    RequeueKeeps(s, id);
    var r, t := SysRequeue(s, id), SysNack(s, id);
    forall d | Carries(r, d) ensures Carries(t, d) {}
    forall i | 0 <= i < |t.log| ensures Located(t, i) { assert Located(r, i); }
  }

  /** Every event keeps the invariant, and its history step follows the channel's own operation. */
  lemma StepKeeps<M>(s: Sys<M>, e: Event<M>, hash: M -> string)
    requires Inv(s)
    ensures Inv(Next(s, e, hash))
    ensures Next(s, e, hash).chan ==
            match e
            case PublishEvent(m) => Publish(s.chan, m, hash)
            case ReceiveEvent(now, lease, order, matches) => Scan(s.chan, now, lease, order, matches).0
            case AckEvent(id) => Ack(s.chan, id)
            case NackEvent(id) => Nack(s.chan, id)
  {
    match e
    case PublishEvent(m) => PublishKeeps(s, m, hash);
    case ReceiveEvent(now, lease, order, matches) => ScanKeeps(s, now, lease, order, matches);
    case AckEvent(id) => if id in s.chan.inflight { AckKeeps(s, id); }
    case NackEvent(id) => if id in s.chan.inflight { NackKeeps(s, id); }
  }
}
