/** `ORDER BY ... LIMIT n` over part of a table: the first `n` ids of a pool in key order. */
module Selection {
  import opened Wrappers

  /** Up to three order columns, compared lexicographically; the last one is usually the row id. */
  datatype SortKey = SortKey(major: int, middle: int, minor: int)

  type Keys = map<nat, SortKey>

  predicate Before(a: SortKey, b: SortKey) {
    || a.major < b.major
    || (a.major == b.major && a.middle < b.middle)
    || (a.major == b.major && a.middle == b.middle && a.minor < b.minor)
  }

  /** Every pooled row has a key and no two share one. */
  ghost predicate Ordered(pool: set<nat>, keys: Keys) {
    && pool <= keys.Keys
    && forall a, b :: a in pool && b in pool && a != b ==> keys[a] != keys[b]
  }

  ghost predicate IsLeast(pool: set<nat>, keys: Keys, m: nat) {
    && m in pool && pool <= keys.Keys
    && forall k :: k in pool && k != m ==> Before(keys[m], keys[k])
  }

  lemma LeastExists(pool: set<nat>, keys: Keys)
    requires pool != {} && Ordered(pool, keys)
    ensures exists m :: IsLeast(pool, keys, m)
  {
    var k :| k in pool;
    if pool == {k} {
      assert IsLeast(pool, keys, k);
    } else {
      LeastExists(pool - {k}, keys);
      var m :| IsLeast(pool - {k}, keys, m);
      assert IsLeast(pool, keys, if Before(keys[k], keys[m]) then k else m);
    }
  }

  ghost function Least(pool: set<nat>, keys: Keys): (m: nat)
    requires pool != {} && Ordered(pool, keys)
    ensures IsLeast(pool, keys, m)
  {
    LeastExists(pool, keys);
    var m :| IsLeast(pool, keys, m);
    m
  }

  ghost function First(pool: set<nat>, keys: Keys, n: nat): (f: set<nat>)
    requires Ordered(pool, keys)
    ensures f <= pool
    decreases n
  {
    if n == 0 || pool == {} then {}
    else
      var m := Least(pool, keys);
      {m} + First(pool - {m}, keys, n - 1)
  }

  /** The chosen rows are as many as fit and come before all the others. */
  ghost predicate IsFirst(pool: set<nat>, keys: Keys, n: nat, chosen: set<nat>)
    requires pool <= keys.Keys
  {
    && chosen <= pool
    && |chosen| == Min(n, |pool|)
    && forall a, b :: a in chosen && b in pool && b !in chosen ==> Before(keys[a], keys[b])
  }

  /** Putting the least row in front of the first rows of the rest. */
  lemma Prepend(pool: set<nat>, keys: Keys, n: nat, m: nat, f: set<nat>)
    requires n > 0 && IsLeast(pool, keys, m) && IsFirst(pool - {m}, keys, n - 1, f)
    ensures IsFirst(pool, keys, n, {m} + f)
  {
    assert m !in f;
    forall a, b | a in {m} + f && b in pool && b !in {m} + f ensures Before(keys[a], keys[b]) {
      if a != m { assert b in pool - {m}; }
    }
  }

  lemma {:induction false} FirstIsFirst(pool: set<nat>, keys: Keys, n: nat)
    requires Ordered(pool, keys)
    ensures IsFirst(pool, keys, n, First(pool, keys, n))
    decreases n
  {
    if n > 0 && pool != {} {
      var m := Least(pool, keys);
      FirstIsFirst(pool - {m}, keys, n - 1);
      Prepend(pool, keys, n, m, First(pool - {m}, keys, n - 1));
    }
  }

  /** A row that is left out comes after each chosen one, and there are `n` of them. */
  lemma LeftOutIsLater(pool: set<nat>, keys: Keys, n: nat, id: nat)
    requires Ordered(pool, keys) && id in pool && id !in First(pool, keys, n)
    ensures |First(pool, keys, n)| == n
    ensures forall p <- First(pool, keys, n) :: p in keys && Before(keys[p], keys[id])
  {
    FirstIsFirst(pool, keys, n);
    if |First(pool, keys, n)| == |pool| { SubsetOfSameSize(First(pool, keys, n), pool); }
  }

  /** The first `n` rows are determined by the order alone. */
  lemma FirstIsUnique(pool: set<nat>, keys: Keys, n: nat, chosen: set<nat>)
    requires Ordered(pool, keys) && IsFirst(pool, keys, n, chosen)
    ensures chosen == First(pool, keys, n)
  {
    var f := First(pool, keys, n);
    FirstIsFirst(pool, keys, n);
    if a :| a in chosen && a !in f {
      forall b | b in f ensures b in chosen {}
      SubsetOfSameSize(f, chosen);
    } else {
      SubsetOfSameSize(chosen, f);
    }
  }

  lemma SubsetOfSameSize<T>(a: set<T>, b: set<T>)
    requires a <= b && |a| == |b|
    ensures a == b
  {
    assert |b - a| == 0 by { assert b == a + (b - a); }
  }
}
