/**
 The action outbox as it runs (runinator-database/src/operations.rs): each method is one step of module
 Dispatches, statement by statement on the stored table, with the dialect branch of the claim.
 */
module DispatchStore {
  import opened Wrappers
  import opened Render
  import opened Selection
  import opened Dispatches
  import DispatchClaims
  import L = Leases

  /** A claim takes unpublished dispatches whose claim is unset, ended or the claimant's own. */
  lemma PickInColumns(rows: map<nat, Dispatch>, who: L.Owner, now: int, limit: int, skipped: set<nat>)
    ensures var picked := ClaimPick(rows, who, now, limit, skipped);
            && |picked| <= (if limit < 1 then 1 else limit)
            && forall id <- picked ::
                 && id in rows && id !in skipped && rows[id].publishedAt.None?
                 && (rows[id].lease.until.None? || rows[id].lease.until.value <= now
                     || rows[id].lease.owner == Some(who))
  {
    FirstIsFirst(ClaimPool(rows, who, now) - skipped, DispatchOrder(rows), if limit < 1 then 1 else limit);
  }

  /** Another such dispatch comes after each picked one by (updated_at, id), and the batch is full. */
  lemma PickLeftOut(rows: map<nat, Dispatch>, who: L.Owner, now: int, limit: int, skipped: set<nat>, id: nat)
    requires id in rows && id !in skipped && rows[id].publishedAt.None?
    requires rows[id].lease.until.None? || rows[id].lease.until.value <= now || rows[id].lease.owner == Some(who)
    requires id !in ClaimPick(rows, who, now, limit, skipped)
    ensures var picked := ClaimPick(rows, who, now, limit, skipped);
            && |picked| == (if limit < 1 then 1 else limit)
            && forall p <- picked ::
                 && p in rows
                 && (rows[p].updatedAt < rows[id].updatedAt || (rows[p].updatedAt == rows[id].updatedAt && p < id))
  {
    LeftOutIsLater(ClaimPool(rows, who, now) - skipped, DispatchOrder(rows), if limit < 1 then 1 else limit, id);
  }

  class DispatchTable {
    const dialect: SqlDialect
    var rows: map<nat, Dispatch>
    var used: set<nat>

    constructor (dialect: SqlDialect)
      ensures View() == EMPTY && this.dialect == dialect
    {
      this.dialect := dialect;
      rows, used := map[], {};
    }

    ghost function View(): Outbox
      reads this
    {
      Outbox(rows, used)
    }

    /**
     `enqueue_action_dispatch` under a new id: the first writer of a key wins, and everybody gets the row
     of the key.
     */
    method EnqueueActionDispatch(id: nat, key: string, command: string, now: int) returns (row: nat)
      requires id !in used && rows.Keys <= used
      modifies this
      ensures View() == Next(old(View()), At(now, Enqueue(id, key, command)))
      ensures row in rows && rows[row].key == key
      ensures rows ==
              if exists x <- old(rows) :: old(rows)[x].key == key then old(rows)
              else old(rows)[id := Dispatch(key, command, 0, now, now, None, L.Lease(None, None))]
    {
      used := used + {id};
      if x :| x in rows && rows[x].key == key {
        row := x;
      } else {
        rows := rows[id := Dispatch(key, command, 0, now, now, None, L.FREE)];
        row := id;
      }
    }

    /** The claim's `UPDATE ... WHERE id IN (picked)`, which moves the rows to the back of the order. */
    method UpdateClaimed(who: L.Owner, now: int, until: int, limit: int, picked: set<nat>, ghost skipped: set<nat>)
      requires picked == ClaimPick(rows, who, now, limit, skipped)
      modifies `rows
      ensures View() == Next(old(View()), At(now, Claim(who, until, limit, skipped)))
      ensures rows.Keys == old(rows).Keys
      ensures forall id <- rows ::
                rows[id] ==
                if id in picked then old(rows)[id].(lease := L.Lease(Some(who), Some(until)), updatedAt := now)
                else old(rows)[id]
    {
      rows := map id | id in rows ::
        if id in picked then rows[id].(lease := L.Lease(Some(who), Some(until)), updatedAt := now) else rows[id];
      assert rows == ClaimRows(old(rows), picked, who, now, until);
    }

    /** MySQL's second statement: whatever carries (who, until) by the time it runs. */
    method SelectClaimed(who: L.Owner, until: int) returns (claimed: set<nat>)
      ensures claimed == DispatchClaims.ReadBack(rows, who, until)
      ensures forall id :: id in claimed <==>
                id in rows && rows[id].lease.owner == Some(who) && rows[id].lease.until == Some(until)
    {
      claimed := set id | id in rows && rows[id].lease == L.Lease(Some(who), Some(until));
    }

    /**
     `claim_pending_action_dispatches`, with nothing in between its two statements on MySQL. Every granted
     row is unpublished; another claimable one that is not skipped comes after each granted one by
     (updated_at, id) and finds a full batch ahead of it.
     */
    method ClaimPendingActionDispatches(
        who: L.Owner, now: int, until: int, limit: int, picked: set<nat>, ghost skipped: set<nat>)
      returns (claimed: set<nat>)
      requires picked == ClaimPick(rows, who, now, limit, skipped)
      modifies `rows
      ensures View() == Next(old(View()), At(now, Claim(who, until, limit, skipped)))
      ensures picked <= claimed && (!dialect.MySql? ==> claimed == picked)
      ensures dialect.MySql? ==>
                forall id :: id in claimed <==> id in rows && rows[id].lease == L.Lease(Some(who), Some(until))
      ensures |picked| <= if limit < 1 then 1 else limit
      ensures forall id <- picked ::
                && id in old(rows) && old(rows)[id].publishedAt.None?
                && (old(rows)[id].lease.until.None? || old(rows)[id].lease.until.value <= now
                    || old(rows)[id].lease.owner == Some(who))
      ensures forall id <- old(rows) ::
                && id !in picked && id !in skipped && old(rows)[id].publishedAt.None?
                && (old(rows)[id].lease.until.None? || old(rows)[id].lease.until.value <= now
                    || old(rows)[id].lease.owner == Some(who))
                ==>
                && |picked| == (if limit < 1 then 1 else limit)
                && forall p <- picked ::
                     || old(rows)[p].updatedAt < old(rows)[id].updatedAt
                     || (old(rows)[p].updatedAt == old(rows)[id].updatedAt && p < id)
      ensures rows.Keys == old(rows).Keys
      ensures forall id <- rows ::
                rows[id] ==
                if id in picked then old(rows)[id].(lease := L.Lease(Some(who), Some(until)), updatedAt := now)
                else old(rows)[id]
    {
      PickInColumns(rows, who, now, limit, skipped);
      forall id | id in rows && id !in picked && id !in skipped && rows[id].publishedAt.None?
                  && (rows[id].lease.until.None? || rows[id].lease.until.value <= now
                      || rows[id].lease.owner == Some(who))
        ensures |picked| == (if limit < 1 then 1 else limit)
        ensures forall p <- picked ::
                  rows[p].updatedAt < rows[id].updatedAt || (rows[p].updatedAt == rows[id].updatedAt && p < id)
      {
        PickLeftOut(rows, who, now, limit, skipped, id);
      }
      UpdateClaimed(who, now, until, limit, picked, skipped);
      if dialect.MySql? {
        claimed := SelectClaimed(who, until);
      } else {
        claimed := picked;
      }
    }

    /** `mark_action_dispatch_published`: whoever calls, the row is published now and free. */
    method MarkActionDispatchPublished(id: nat, ghost who: L.Owner, now: int)
      modifies `rows
      ensures View() == Next(old(View()), At(now, Published(id, who)))
      ensures rows ==
              if id in old(rows)
              then old(rows)[id := old(rows)[id].(publishedAt := Some(now), updatedAt := now,
                                                  lease := L.Lease(None, None))]
              else old(rows)
    {
      if id in rows {
        rows := rows[id := rows[id].(publishedAt := Some(now), updatedAt := now, lease := L.FREE)];
      }
    }

    /** `mark_action_dispatch_failed`: whoever calls, one more attempt, and the row is free. */
    method MarkActionDispatchFailed(id: nat, ghost who: L.Owner, now: int)
      modifies `rows
      ensures View() == Next(old(View()), At(now, Failed(id, who)))
      ensures rows ==
              if id in old(rows)
              then old(rows)[id := old(rows)[id].(attempts := old(rows)[id].attempts + 1, updatedAt := now,
                                                  lease := L.Lease(None, None))]
              else old(rows)
    {
      if id in rows {
        rows := rows[id := rows[id].(attempts := rows[id].attempts + 1, updatedAt := now, lease := L.FREE)];
      }
    }
  }
}
