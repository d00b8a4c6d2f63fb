/**
 Time-limited claims on table rows (`claimed_by`, `claimed_until`), as ready nodes, workflow runs,
 archive marks and action dispatches all carry them, and what a claim promises its holder.
 */
module Leases {
  import opened Wrappers

  type Owner = string

  datatype Lease = Lease(owner: Option<Owner>, until: Option<int>)

  const FREE := Lease(None, None)

  /** `claimed_until IS NULL OR claimed_until <= now OR claimed_by = who`. */
  predicate Claimable(lease: Lease, who: Owner, now: int) {
    lease.until.None? || lease.until.value <= now || lease.owner == Some(who)
  }

  /** The claim columns after an update of the picked rows. */
  function Granted(leases: map<nat, Lease>, picked: set<nat>, who: Owner, until: int): map<nat, Lease> {
    map id | id in leases :: if id in picked then Lease(Some(who), Some(until)) else leases[id]
  }

  // ---- update-then-read-back against UPDATE ... RETURNING ----

  /** MySQL's second statement: `WHERE claimed_by = ? AND claimed_until = ?`. */
  function ReadBack(leases: map<nat, Lease>, who: Owner, until: int): set<nat> {
    set id | id in leases && leases[id] == Lease(Some(who), Some(until))
  }

  /**
   Reading back by (owner, deadline) returns exactly the updated rows if and only if no other row
   carried that pair before; otherwise it returns those rows as well.
   */
  lemma ReadBackIsReturning(leases: map<nat, Lease>, picked: set<nat>, who: Owner, until: int)
    requires picked <= leases.Keys
    ensures ReadBack(Granted(leases, picked, who, until), who, until)
            == picked + ReadBack(leases, who, until)
    ensures ReadBack(Granted(leases, picked, who, until), who, until) == picked
            <==> ReadBack(leases, who, until) <= picked
  {
    var after := ReadBack(Granted(leases, picked, who, until), who, until);
    assert after == picked + ReadBack(leases, who, until);
  }

  // ---- exclusion over runs ----

  datatype Action =
    | Add(id: nat)
    | Remove(id: nat)
    | Grant(ids: set<nat>, who: Owner, until: int)
    | Renew(id: nat, who: Owner, until: int)
    | Release(id: nat, who: Owner)
    | Other

  datatype Step = At(now: int, action: Action)

  /**
   The claim columns beside what every owner last heard: an owner believes it holds a row until the
   deadline of its latest successful grant or renewal, or until it lets go.
   */
  datatype State = State(
    leases: map<nat, Lease>,
    beliefs: map<(nat, Owner), int>,
    clock: int,
    used: set<nat>)

  ghost predicate Legal(s: State, step: Step) {
    && s.clock <= step.now
    && match step.action
       case Add(id) => id !in s.used
       case Grant(ids, who, _) => forall id <- ids :: id in s.leases && Claimable(s.leases[id], who, step.now)
       case _ => true
  }

  function Next(s: State, step: Step): State {
    var t := s.(clock := step.now);
    match step.action
    case Add(id) => t.(leases := s.leases[id := FREE], used := s.used + {id})
    case Remove(id) => t.(leases := s.leases - {id})
    case Grant(ids, who, until) =>
      t.(leases := Granted(s.leases, ids, who, until),
         beliefs := s.beliefs + map id | id in ids :: (id, who) := until)
    case Renew(id, who, until) =>
      if id in s.leases && s.leases[id].owner == Some(who)
      then t.(leases := s.leases[id := s.leases[id].(until := Some(until))],
              beliefs := s.beliefs[(id, who) := until])
      else t
    case Release(id, who) =>
      t.(leases := if id in s.leases && s.leases[id].owner == Some(who) then s.leases[id := FREE] else s.leases,
         beliefs := s.beliefs - {(id, who)})
    case Other => t
  }

  ghost predicate Believes(s: State, id: nat, who: Owner) {
    (id, who) in s.beliefs && s.beliefs[(id, who)] > s.clock
  }

  /** At most one owner believes it holds a row. */
  ghost predicate Exclusive(s: State) {
    forall id, a, b :: Believes(s, id, a) && Believes(s, id, b) ==> a == b
  }

  /** A live belief is what the row says, as long as the row exists. */
  ghost predicate Backed(s: State) {
    && s.leases.Keys <= s.used
    && forall id: nat, who: Owner :: (id, who) in s.beliefs ==>
      && id in s.used
      && (s.beliefs[(id, who)] > s.clock && id in s.leases ==>
            s.leases[id] == Lease(Some(who), Some(s.beliefs[(id, who)])))
  }

  /** A belief that lives on unchanged was live before, and the row named its owner. */
  lemma LiveIsOwner(s: State, t: State, now: int, id: nat, who: Owner)
    requires Backed(s) && s.clock <= now == t.clock && Believes(t, id, who)
    requires (id, who) in s.beliefs && s.beliefs[(id, who)] == t.beliefs[(id, who)]
    ensures Believes(s, id, who)
    ensures id in s.leases ==> s.leases[id].owner == Some(who)
  {
  }

  lemma StepKeeps(s: State, step: Step)
    requires Backed(s) && Exclusive(s) && Legal(s, step)
    ensures Backed(Next(s, step)) && Exclusive(Next(s, step))
  {
    var t := Next(s, step);
    match step.action
    case Grant(ids, who, until) => GrantKeeps(s, step.now, ids, who, until);
    case Renew(id, who, until) => RenewKeeps(s, step.now, id, who, until);
    case _ =>
      forall x: nat, a: Owner | Believes(t, x, a) ensures Believes(s, x, a) {
        assert (x, a) in t.beliefs && t.beliefs[(x, a)] == s.beliefs[(x, a)];
      }
  }

  lemma RenewKeeps(s: State, now: int, id: nat, who: Owner, until: int)
    requires Backed(s) && Exclusive(s) && s.clock <= now
    ensures Backed(Next(s, At(now, Renew(id, who, until)))) && Exclusive(Next(s, At(now, Renew(id, who, until))))
  {
    var t := Next(s, At(now, Renew(id, who, until)));
    var renewed := id in s.leases && s.leases[id].owner == Some(who);
    forall x, a, b | Believes(t, x, a) && Believes(t, x, b) ensures a == b {
      if !(renewed && x == id && a == who) { LiveIsOwner(s, t, now, x, a); }
      if !(renewed && x == id && b == who) { LiveIsOwner(s, t, now, x, b); }
    }
  }

  lemma GrantKeeps(s: State, now: int, ids: set<nat>, who: Owner, until: int)
    requires Backed(s) && Exclusive(s) && Legal(s, At(now, Grant(ids, who, until)))
    ensures Backed(Next(s, At(now, Grant(ids, who, until))))
    ensures Exclusive(Next(s, At(now, Grant(ids, who, until))))
  {
    var t := Next(s, At(now, Grant(ids, who, until)));
    forall x, a | Believes(t, x, a) ensures (x in ids && a == who) || (x !in ids && Believes(s, x, a)) {}
  }

  /**
   A row passes to a different owner only when the deadline its previous holder last heard, renewals
   included, has come, or that holder has released it.
   */
  lemma NextHolderWaits(s: State, now: int, ids: set<nat>, who: Owner, until: int, id: nat, holder: Owner)
    requires Backed(s) && Legal(s, At(now, Grant(ids, who, until)))
    requires id in ids && holder != who && (id, holder) in s.beliefs
    ensures s.beliefs[(id, holder)] <= now
  {
    assert Claimable(s.leases[id], who, now);
  }

  ghost predicate Run(states: seq<State>, steps: seq<Step>) {
    && |states| == |steps| + 1
    && states[0].beliefs == map[] && states[0].leases.Keys <= states[0].used
    && forall k :: 0 <= k < |steps| ==> Legal(states[k], steps[k]) && states[k + 1] == Next(states[k], steps[k])
  }

  /**
   Mutual exclusion over every run on a nondecreasing clock: two different owners never both hold an
   unexpired, unreleased grant of one row.
   */
  lemma {:induction false} HoldersExclude(states: seq<State>, steps: seq<Step>, k: nat)
    requires Run(states, steps) && k < |states|
    ensures Exclusive(states[k]) && Backed(states[k])
  {
    if k > 0 {
      HoldersExclude(states, steps, k - 1);
      StepKeeps(states[k - 1], steps[k - 1]);
    }
  }

  // ---- what breaks exclusion ----

  /** A row names an owner and a deadline only as that owner was told them. */
  ghost predicate Told(s: State) {
    forall id <- s.leases :: s.leases[id].owner.Some? ==>
      var key := (id, s.leases[id].owner.value);
      key in s.beliefs && s.leases[id].until == Some(s.beliefs[key])
  }

  lemma StepKeepsTold(s: State, step: Step)
    requires Told(s) && Legal(s, step)
    ensures Told(Next(s, step))
  {
    var t := Next(s, step);
    match step.action
    case Grant(ids, who, until) =>
      forall id | id in t.leases && t.leases[id].owner.Some?
        ensures (id, t.leases[id].owner.value) in t.beliefs
        ensures t.leases[id].until == Some(t.beliefs[(id, t.leases[id].owner.value)])
      {
        if id in ids {
          assert (id, who) in t.beliefs;
        } else {
          assert (id, s.leases[id].owner.value) in s.beliefs;
        }
      }
    case _ =>
  }

  /**
   Freeing the claim of somebody who still believes in it lets anybody else claim the row at once, and
   then two owners hold it.
   */
  lemma FreedIsShared(s: State, id: nat, holder: Owner, who: Owner, until: int)
    requires id in s.leases && Believes(s, id, holder) && who != holder && until > s.clock
    ensures var freed := s.(leases := s.leases[id := FREE]);
            var step := At(s.clock, Grant({id}, who, until));
            Legal(freed, step) && !Exclusive(Next(freed, step))
  {
    var freed := s.(leases := s.leases[id := FREE]);
    var t := Next(freed, At(s.clock, Grant({id}, who, until)));
    assert Believes(t, id, holder) && Believes(t, id, who);
  }

  // ---- a read-back some steps after its update ----

  /** What one statement does to the claim columns of one row. */
  datatype Touch = Untouched | Gets(lease: Lease) | Gone

  function Touched(row: Option<Lease>, touch: Touch): Option<Lease> {
    match touch
    case Untouched => row
    case Gets(lease) => Some(lease)
    case Gone => None
  }

  /** The row of id `id`, if there is one. */
  function RowOf(leases: map<nat, Lease>, id: nat): Option<Lease> {
    if id in leases then Some(leases[id]) else None
  }

  ghost predicate Follows(rows: seq<Option<Lease>>, touches: seq<Touch>) {
    && |rows| == |touches| + 1
    && forall m :: 0 <= m < |touches| ==> rows[m + 1] == Touched(rows[m], touches[m])
  }

  ghost predicate LeftAlone(touches: seq<Touch>, i: nat, j: nat)
    requires j <= |touches|
  {
    forall m :: i <= m < j ==> touches[m].Untouched?
  }

  /** Statement `m` writes the pair and nothing touches the row from there to `j`. */
  ghost predicate LastWrite(touches: seq<Touch>, lease: Lease, m: nat, j: nat)
    requires m < j <= |touches|
  {
    touches[m] == Gets(lease) && LeftAlone(touches, m + 1, j)
  }

  ghost predicate WrittenBetween(touches: seq<Touch>, lease: Lease, i: nat, j: nat)
    requires j <= |touches|
  {
    exists m :: i <= m < j && LastWrite(touches, lease, m, j)
  }

  lemma WrittenGrows(touches: seq<Touch>, lease: Lease, i: nat, j: nat)
    requires i <= j < |touches|
    ensures WrittenBetween(touches, lease, i, j + 1)
            <==> touches[j] == Gets(lease) || (touches[j].Untouched? && WrittenBetween(touches, lease, i, j))
  {
    var n := j + 1;
    if m :| i <= m < n && LastWrite(touches, lease, m, n) {
      if m < j { assert LastWrite(touches, lease, m, j) && touches[j].Untouched?; }
    }
    if touches[j] == Gets(lease) {
      assert LastWrite(touches, lease, j, j + 1);
    } else if touches[j].Untouched? {
      if m :| i <= m < j && LastWrite(touches, lease, m, j) {
        assert LastWrite(touches, lease, m, j + 1);
      }
    }
  }

  /**
   A row carries a lease at `j` if and only if it carried it at `i` and nothing has touched it since, or
   some statement in between wrote it and nothing has touched the row after that.
   */
  lemma {:induction false} CarriesIff(rows: seq<Option<Lease>>, touches: seq<Touch>, i: nat, j: nat, lease: Lease)
    requires Follows(rows, touches) && i <= j < |rows|
    ensures rows[j] == Some(lease) <==>
            (rows[i] == Some(lease) && LeftAlone(touches, i, j)) || WrittenBetween(touches, lease, i, j)
    decreases j
  {
    if i < j {
      CarriesIff(rows, touches, i, j - 1, lease);
      WrittenGrows(touches, lease, i, j - 1);
      assert LeftAlone(touches, i, j) <==> LeftAlone(touches, i, j - 1) && touches[j - 1].Untouched?;
    }
  }
}
