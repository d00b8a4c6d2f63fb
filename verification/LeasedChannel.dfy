/**
 A channel of `InMemoryBroker` as the mutable object it is: every method is one critical section
 under the broker's lock (runinator-broker/src/in_memory.rs). The action, result, wake and ingress
 channels are `Deduped`; the control channel is `Expiring`. The ghost history ties each call to the
 runs of module ChannelTheorems.
 */
module InMemory {
  import opened Wrappers
  import opened Targeting
  import opened Channel
  import opened ChannelRuns

  class LeasedChannel<M> {
    const policy: Policy
    const lease: nat
    const hash: M -> string
    const target: M -> ActionTarget
    var queue: seq<Delivery<M>>
    var inflight: map<nat, Leased<M>>
    var dedupe: set<string>
    var nextId: nat
    ghost var history: Sys<M>

    ghost function View(): Chan<M>
      reads this
    {
      Chan(policy, queue, inflight, dedupe, nextId)
    }

    ghost predicate Valid()
      reads this
    {
      Inv(history) && history.chan == View()
    }

    constructor (policy: Policy, lease: nat, hash: M -> string, target: M -> ActionTarget)
      ensures Valid() && history == Start(policy)
      ensures this.policy == policy && this.lease == lease && this.hash == hash && this.target == target
    {
      this.policy, this.lease, this.hash, this.target := policy, lease, hash, target;
      queue, inflight, dedupe, nextId := [], map[], {}, 0;
      history := Start(policy);
    }

    /** `publish*`; false is `BrokerError::Duplicate`, which only a deduped channel reports. */
    method Publish(m: Message<M>) returns (ok: bool)
      requires Valid()
      modifies this
      ensures Valid()
      ensures history == Next(old(history), PublishEvent(m), hash)
      ensures var key := if policy.Expiring? then "" else if m.dedupeKey.Some? then m.dedupeKey.value else hash(m.body);
              && (ok <==> policy.Expiring? || key !in old(dedupe))
              && queue == old(queue) + (if ok then [Delivery(old(nextId), m.body, key, m.enqueuedAt)] else [])
              && dedupe == old(dedupe) + (if policy.Deduped? then {key} else {})
              && nextId == old(nextId) + (if ok then 1 else 0) && inflight == old(inflight)
    {
      StepKeeps(history, PublishEvent(m), hash);
      history := Next(history, PublishEvent(m), hash);
      if policy.Expiring? {
        queue := queue + [ToControl(m, nextId)];
      } else {
        var key := KeyOrHash(m, hash);
        if key in dedupe {
          return false;
        }
        dedupe := dedupe + {key};
        queue := queue + [ToDelivery(m, hash, nextId)];
      }
      nextId := nextId + 1;
      ok := true;
    }

    /** `expired_ids`: hash-map iteration visits the leases in no particular order. */
    method ExpiredIds(now: int) returns (ids: seq<nat>)
      ensures ExpiredOrder(View(), now, ids)
      ensures forall id :: id in ids <==> id in inflight && inflight[id].until <= now
    {
      ids := [];
      var todo := inflight.Keys;
      while todo != {}
        invariant todo <= inflight.Keys
        invariant forall i, j :: 0 <= i < j < |ids| ==> ids[i] != ids[j]
        invariant forall id :: id in ids <==> id in Expired(inflight, now) && id !in todo
        decreases |todo|
      {
        var id :| id in todo;
        if inflight[id].until <= now {
          ids := ids + [id];
        }
        todo := todo - {id};
      }
    }

    /** The requeue loop of `reclaim_expired_*`. */
    method RequeueEach(ids: seq<nat>)
      requires Valid()
      modifies this
      ensures Valid()
      ensures history == SysReclaim(old(history), ids)
    {
      var i := 0;
      while i < |ids|
        invariant 0 <= i <= |ids|
        invariant Valid()
        invariant SysReclaim(history, ids[i..]) == SysReclaim(old(history), ids)
      {
        var id := ids[i];
        assert ids[i..][1..] == ids[i + 1..];
        if id in inflight {
          RequeueKeeps(history, id);
          history := SysRequeue(history, id);
          queue := [inflight[id].delivery.(id := nextId)] + queue;
          inflight := inflight - {id};
          nextId := nextId + 1;
        }
        i := i + 1;
      }
    }

    /** `reclaim_expired_*`: each expired lease goes back to the front under a fresh id, and nothing else moves. */
    method ReclaimExpired(now: int) returns (ghost order: seq<nat>)
      requires Valid()
      modifies this
      ensures Valid()
      ensures ExpiredOrder(old(View()), now, order)
      ensures history == SysReclaim(old(history), order)
      ensures inflight == map id | id in old(inflight) && old(inflight)[id].until > now :: old(inflight)[id]
      ensures |queue| == |order| + |old(queue)| && queue[|order|..] == old(queue)
      ensures forall i :: 0 <= i < |order| ==>
                && order[i] in old(inflight)
                && queue[|order| - 1 - i] == old(inflight)[order[i]].delivery.(id := old(nextId) + i)
      ensures nextId == old(nextId) + |order| && dedupe == old(dedupe)
    {
      var ids := ExpiredIds(now);
      order := ids;
      ReclaimInColumns(View(), ids);
      ReclaimKeeps(history, ids);
      RequeueEach(ids);
    }

    /** `retain`: the deliveries younger than five minutes, in order. */
    method RetainFresh(now: int) returns (kept: seq<Delivery<M>>)
      ensures kept == Retained(queue, now)
    {
      kept := [];
      var i := 0;
      while i < |queue|
        invariant 0 <= i <= |queue|
        invariant kept + Retained(queue[i..], now) == Retained(queue, now)
      {
        assert queue[i..][1..] == queue[i + 1..];
        if !Stale(queue[i].enqueuedAt, now) {
          kept := kept + [queue[i]];
        }
        i := i + 1;
      }
    }

    /** `drop_stale_control`, which only the control channel runs. */
    method DropStaleControls(now: int)
      requires Valid()
      modifies this
      ensures Valid()
      ensures history == SysDrop(old(history), now)
      ensures queue == if policy.Expiring? then Retained(old(queue), now) else old(queue)
      ensures forall d: Delivery<M> ::
                d in queue <==> d in old(queue) && (policy.Deduped? || now - d.enqueuedAt < 300_000)
      ensures inflight == old(inflight) && dedupe == old(dedupe) && nextId == old(nextId)
    {
      RetainedIsFilter(queue, now);
      if policy.Expiring? {
        queue := RetainFresh(now);
      }
      DropKeeps(history, now);
      history := SysDrop(history, now);
    }

    /** `iter().position(..)`; the length of the queue stands for no match. */
    method FirstIndex(matches: Delivery<M> -> bool) returns (p: nat)
      ensures p == Position(queue, matches)
    {
      p := 0;
      while p < |queue| && !matches(queue[p])
        invariant p <= |queue|
        invariant forall j :: 0 <= j < p ==> !matches(queue[j])
      {
        p := p + 1;
      }
      var q := Position(queue, matches);
    }

    /** What every receive starts with: the reclaim and, on the control channel, the drop. */
    method Sweep(now: int) returns (ghost order: seq<nat>)
      requires Valid()
      modifies this
      ensures Valid()
      ensures ExpiredOrder(old(View()), now, order)
      ensures history == SysDrop(SysReclaim(old(history), order), now)
      ensures View() == DropStale(Reclaim(old(View()), order), now)
    {
      ghost var before := history;
      order := ReclaimExpired(now);
      DropStaleControls(now);
      SweepKeeps(before, now, order);
    }

    /** One locked pass of `receive*`; `None` is where the source goes to sleep and retries. */
    method TryReceive(now: int, matches: Delivery<M> -> bool)
      returns (got: Option<Delivery<M>>, ghost order: seq<nat>)
      requires Valid()
      modifies this
      ensures Valid()
      ensures ExpiredOrder(old(View()), now, order)
      ensures history == Next(old(history), ReceiveEvent(now, lease, order, matches), hash)
      ensures (View(), got) == Scan(old(View()), now, lease, order, matches)
    {
      ghost var before := history;
      order := Sweep(now);
      ScanKeeps(before, now, lease, order, matches);
      var p := FirstIndex(matches);
      if p == |queue| {
        return None, order;
      }
      got := Some(queue[p]);
      history := SysTake(history, p, now + lease);
      inflight := inflight[queue[p].id := Leased(queue[p], now + lease)];
      queue := queue[..p] + queue[p + 1..];
      assert history == SysScan(before, now, lease, order, matches);
    }

    /** `receive_for` and `receive_control_for`: the first delivery targeted at this consumer. */
    method ReceiveFor(profile: ConsumerProfile, now: int)
      returns (got: Option<Delivery<M>>, ghost order: seq<nat>)
      requires Valid()
      modifies this
      ensures Valid()
      ensures ExpiredOrder(old(View()), now, order)
      ensures (View(), got) ==
              Scan(old(View()), now, lease, order, (d: Delivery<M>) => Matches(target(d.body), profile))
      ensures got.Some? ==>
                && got.value.id in inflight && inflight[got.value.id] == Leased(got.value, now + lease)
                && match target(got.value.body)
                   case Any => !profile.exclusive
                   case Labelled(selector) =>
                     forall key <- selector :: key in profile.labels && profile.labels[key] == selector[key]
                   case Replica(replicaId) => profile.replicaId == Some(replicaId)
      ensures got.None? ==> forall d <- queue ::
                match target(d.body)
                case Any => profile.exclusive
                case Labelled(selector) =>
                  exists key <- selector :: key !in profile.labels || profile.labels[key] != selector[key]
                case Replica(replicaId) => profile.replicaId != Some(replicaId)
    {
      var targets := target;
      var matches := (d: Delivery<M>) => Matches(targets(d.body), profile);
      got, order := TryReceive(now, matches);
    }

    /** `receive_result`, `receive_wake`, `receive_ingress`, `receive_control`: the head of the queue. */
    method ReceiveHead(now: int) returns (got: Option<Delivery<M>>, ghost order: seq<nat>)
      requires Valid()
      modifies this
      ensures Valid()
      ensures ExpiredOrder(old(View()), now, order)
      ensures var swept := DropStale(Reclaim(old(View()), order), now);
              if swept.queue == [] then got.None? && View() == swept
              else got == Some(swept.queue[0]) && View() == Take(swept, 0, now + lease)
    {
      got, order := TryReceive(now, (_: Delivery<M>) => true);
    }

    /** `ack*`; false is `BrokerError::UnknownDelivery`. */
    method Ack(id: nat) returns (ok: bool)
      requires Valid()
      modifies this
      ensures Valid()
      ensures ok <==> id in old(inflight)
      ensures history == Next(old(history), AckEvent(id), hash)
      ensures queue == old(queue) && nextId == old(nextId) && inflight == old(inflight) - {id}
      ensures dedupe == old(dedupe) - if ok && policy.Deduped? then {old(inflight)[id].delivery.key} else {}
    {
      StepKeeps(history, AckEvent(id), hash);
      history := Next(history, AckEvent(id), hash);
      if id !in inflight {
        return false;
      }
      if policy.Deduped? {
        dedupe := dedupe - {inflight[id].delivery.key};
      }
      inflight := inflight - {id};
      ok := true;
    }

    /** `nack*`: straight back to the front, under a fresh id. */
    method Nack(id: nat) returns (ok: bool)
      requires Valid()
      modifies this
      ensures Valid()
      ensures ok <==> id in old(inflight)
      ensures history == Next(old(history), NackEvent(id), hash)
      ensures queue == (if ok then [old(inflight)[id].delivery.(id := old(nextId))] else []) + old(queue)
      ensures inflight == old(inflight) - {id} && dedupe == old(dedupe)
      ensures nextId == old(nextId) + if ok then 1 else 0
    {
      StepKeeps(history, NackEvent(id), hash);
      history := Next(history, NackEvent(id), hash);
      if id !in inflight {
        return false;
      }
      queue := [inflight[id].delivery.(id := nextId)] + queue;
      inflight := inflight - {id};
      nextId := nextId + 1;
      ok := true;
    }
  }
}
