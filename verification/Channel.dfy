/**
 One leased channel of the in-memory broker as a value: its queue, its in-flight leases and its
 dedupe set, with the operations the broker performs under its lock
 (runinator-broker/src/in_memory.rs, runinator-broker/src/types.rs).
 Times are milliseconds on one clock; delivery ids come from a counter in place of random uuids.
 */
module Channel {
  import opened Wrappers

  const STALE_CONTROL_TTL_SECONDS := 300

  /** Four channels dedupe by key; the control channel has no keys but drops stale deliveries. */
  datatype Policy = Deduped | Expiring

  datatype Message<M> = Message(body: M, dedupeKey: Option<string>, enqueuedAt: int)
  datatype Delivery<M> = Delivery(id: nat, body: M, key: string, enqueuedAt: int)
  datatype Leased<M> = Leased(delivery: Delivery<M>, until: int)

  datatype Chan<M> = Chan(
    policy: Policy,
    queue: seq<Delivery<M>>,
    inflight: map<nat, Leased<M>>,
    dedupe: set<string>,
    nextId: nat)

  function Empty<M>(policy: Policy): Chan<M> {
    Chan(policy, [], map[], {}, 0)
  }

  // ---- time ----

  /** `num_seconds` of a signed duration: whole seconds, truncated toward zero. */
  function NumSeconds(millis: int): int {
    if millis >= 0 then millis / 1000 else -((-millis) / 1000)
  }

  /** Five minutes to the millisecond, although the age is compared in whole seconds. */
  predicate Stale(enqueuedAt: int, now: int): (stale: bool)
    ensures stale <==> now - enqueuedAt >= 300_000
  {
    NumSeconds(now - enqueuedAt) >= STALE_CONTROL_TTL_SECONDS
  }

  // ---- messages ----

  /** `dedupe_key_or_hash`; `hash` is the key a channel derives from a payload without one. */
  function KeyOrHash<M>(m: Message<M>, hash: M -> string): string {
    if m.dedupeKey.Some? then m.dedupeKey.value else hash(m.body)
  }

  /** The `From<...Message>` conversion, which derives the key a second time. */
  function ToDelivery<M>(m: Message<M>, hash: M -> string, id: nat): Delivery<M> {
    Delivery(id, m.body, KeyOrHash(m, hash), m.enqueuedAt)
  }

  /** `From<ControlCommand>`: a control has no key; it is stamped with the time it was published. */
  function ToControl<M>(m: Message<M>, id: nat): Delivery<M> {
    Delivery(id, m.body, "", m.enqueuedAt)
  }

  // ---- operations ----

  predicate Accepts<M>(c: Chan<M>, m: Message<M>, hash: M -> string) {
    c.policy.Expiring? || KeyOrHash(m, hash) !in c.dedupe
  }

  function Publish<M>(c: Chan<M>, m: Message<M>, hash: M -> string): Chan<M> {
    if !Accepts(c, m, hash) then c
    else if c.policy.Expiring? then
      c.(queue := c.queue + [ToControl(m, c.nextId)], nextId := c.nextId + 1)
    else
      c.(dedupe := c.dedupe + {KeyOrHash(m, hash)},
         queue := c.queue + [ToDelivery(m, hash, c.nextId)],
         nextId := c.nextId + 1)
  }

  /** Take a delivery out of flight and push it to the front under a fresh id (nack and reclaim). */
  function Requeue<M>(c: Chan<M>, id: nat): Chan<M>
    requires id in c.inflight
  {
    c.(queue := [c.inflight[id].delivery.(id := c.nextId)] + c.queue,
       inflight := c.inflight - {id},
       nextId := c.nextId + 1)
  }

  function Expired<M>(inflight: map<nat, Leased<M>>, now: int): set<nat> {
    set id | id in inflight && inflight[id].until <= now
  }

  /** Hash-map iteration: the expired ids in some order, each once. */
  ghost predicate ExpiredOrder<M>(c: Chan<M>, now: int, order: seq<nat>) {
    && (forall i, j :: 0 <= i < j < |order| ==> order[i] != order[j])
    && (forall id :: id in order <==> id in Expired(c.inflight, now))
  }

  function Reclaim<M>(c: Chan<M>, order: seq<nat>): Chan<M>
    decreases |order|
  {
    if order == [] then c
    else Reclaim(if order[0] in c.inflight then Requeue(c, order[0]) else c, order[1..])
  }

  lemma {:induction false} ReclaimKeepsRest<M>(c: Chan<M>, order: seq<nat>)
    requires forall i, j :: 0 <= i < j < |order| ==> order[i] != order[j]
    requires forall id <- order :: id in c.inflight
    ensures var t := Reclaim(c, order);
            && t.policy == c.policy && t.dedupe == c.dedupe && t.nextId == c.nextId + |order|
            && t.inflight == (map id | id in c.inflight && id !in order :: c.inflight[id])
            && |t.queue| == |order| + |c.queue| && t.queue[|order|..] == c.queue
    decreases |order|
  {
    if order != [] {
      var first, rest := order[0], order[1..];
      assert order == [first] + rest && first in order;
      forall id | id in rest ensures id in order && id != first {}
      var m := Requeue(c, first);
      ReclaimKeepsRest(m, rest);
      var t := Reclaim(m, rest);
      assert t.queue[|order|..] == t.queue[|rest|..][1..];
    }
  }

  /**
   Every expired lease is back, each in front of those reclaimed before it, under the next free ids, and
   the queue behind them is as it was.
   */
  lemma {:induction false} ReclaimInColumns<M>(c: Chan<M>, order: seq<nat>)
    requires forall i, j :: 0 <= i < j < |order| ==> order[i] != order[j]
    requires forall id <- order :: id in c.inflight
    ensures var t := Reclaim(c, order);
            && t.policy == c.policy && t.dedupe == c.dedupe && t.nextId == c.nextId + |order|
            && t.inflight == (map id | id in c.inflight && id !in order :: c.inflight[id])
            && |t.queue| == |order| + |c.queue| && t.queue[|order|..] == c.queue
            && forall i :: 0 <= i < |order| ==>
                 t.queue[|order| - 1 - i] == c.inflight[order[i]].delivery.(id := c.nextId + i)
    decreases |order|
  {
    ReclaimKeepsRest(c, order);
    if order != [] {
      var first, rest := order[0], order[1..];
      assert order == [first] + rest && first in order;
      forall id | id in rest ensures id in order && id != first {}
      var m := Requeue(c, first);
      ReclaimInColumns(m, rest);
      var t := Reclaim(m, rest);
      assert t.queue[|rest|] == t.queue[|rest|..][0];
      forall i | 0 < i < |order|
        ensures t.queue[|order| - 1 - i] == c.inflight[order[i]].delivery.(id := c.nextId + i)
      {
        assert rest[i - 1] == order[i];
        assert t.queue[|rest| - 1 - (i - 1)] == m.inflight[rest[i - 1]].delivery.(id := m.nextId + (i - 1));
      }
    }
  }

  /** `retain` on the control queue. */
  function Retained<M>(queue: seq<Delivery<M>>, now: int): seq<Delivery<M>> {
    if queue == [] then []
    else (if Stale(queue[0].enqueuedAt, now) then [] else [queue[0]]) + Retained(queue[1..], now)
  }

  /** A delivery is kept exactly while it is younger than five minutes. */
  lemma RetainedOne<M>(d: Delivery<M>, now: int)
    ensures Retained([d], now) == if now - d.enqueuedAt >= 300_000 then [] else [d]
  {
    assert [d][1..] == [];
  }

  lemma Associates<T>(a: seq<T>, b: seq<T>, c: seq<T>)
    ensures a + (b + c) == a + b + c
  {
  }

  /** What is kept of a queue is what is kept of its front and then of the rest: nothing changes places. */
  lemma {:induction false} RetainedAppends<M>(front: seq<Delivery<M>>, rest: seq<Delivery<M>>, now: int)
    ensures Retained(front + rest, now) == Retained(front, now) + Retained(rest, now)
  {
    var all := front + rest;
    if front == [] {
      assert all == rest;
    } else {
      RetainedAppends(front[1..], rest, now);
      assert all[1..] == front[1..] + rest;
      Associates(if Stale(front[0].enqueuedAt, now) then [] else [front[0]],
                 Retained(front[1..], now), Retained(rest, now));
    }
  }

  function DropStale<M>(c: Chan<M>, now: int): Chan<M> {
    if c.policy.Expiring? then c.(queue := Retained(c.queue, now)) else c
  }

  /** `iter().position(matches)`; the length of the queue stands for no match. */
  function Position<M>(queue: seq<Delivery<M>>, matches: Delivery<M> -> bool): (p: nat)
    ensures p <= |queue|
    ensures forall j :: 0 <= j < p ==> !matches(queue[j])
    ensures p < |queue| ==> matches(queue[p])
  {
    if queue == [] || matches(queue[0]) then 0
    else
      var p := Position(queue[1..], matches);
      assert forall j :: 0 < j < |queue| ==> queue[j] == queue[1..][j - 1];
      p + 1
  }

  function Take<M>(c: Chan<M>, p: nat, until: int): Chan<M>
    requires p < |c.queue|
  {
    c.(queue := c.queue[..p] + c.queue[p + 1..],
       inflight := c.inflight[c.queue[p].id := Leased(c.queue[p], until)])
  }

  /** One locked pass of a receive: reclaim, drop stale controls, lease the first match. */
  function Scan<M>(c: Chan<M>, now: int, lease: nat, order: seq<nat>, matches: Delivery<M> -> bool)
    : (Chan<M>, Option<Delivery<M>>)
  {
    var swept := DropStale(Reclaim(c, order), now);
    var p := Position(swept.queue, matches);
    if p < |swept.queue| then (Take(swept, p, now + lease), Some(swept.queue[p])) else (swept, None)
  }

  function Ack<M>(c: Chan<M>, id: nat): Chan<M> {
    if id !in c.inflight then c
    else c.(inflight := c.inflight - {id},
            dedupe := if c.policy.Deduped? then c.dedupe - {c.inflight[id].delivery.key} else c.dedupe)
  }

  function Nack<M>(c: Chan<M>, id: nat): Chan<M> {
    if id in c.inflight then Requeue(c, id) else c
  }
}
