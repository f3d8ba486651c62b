/** The state machine of a cache of keyed elements. Every section the cache runs under its lock
    is one atomic update; updates of different writers interleave freely. */
module CacheModel {
  import opened KeyedLists
  import opened Options

  /** How elements are normalized before they are kept, and what identifies them. */
  datatype Scheme<!T, !K> = Scheme(normalize: T -> T, key: T -> K)

  ghost predicate Lawful<T(!new), K>(d: Scheme<T, K>) {
    forall e :: d.normalize(d.normalize(e)) == d.normalize(e)
  }

  // ---------- The list a cache holds ----------

  function CloneAll<T, K>(s: seq<T>, d: Scheme<T, K>): (r: seq<T>)
    ensures |r| == |s| && forall i :: 0 <= i < |s| ==> r[i] == d.normalize(s[i])
  {
    seq(|s|, i requires 0 <= i < |s| => d.normalize(s[i]))
  }

  /** Replaces the first element of the same identity, or appends. */
  function Upserted<T, K(==)>(s: seq<T>, e: T, d: Scheme<T, K>): seq<T> {
    Put(s, d.normalize(e), d.key)
  }

  /** Keeps the elements of any other identity. */
  function Deleted<T, K(==)>(s: seq<T>, e: T, d: Scheme<T, K>): seq<T> {
    Remove(s, d.key(d.normalize(e)), d.key)
  }

  ghost predicate AllNormalized<T, K>(s: seq<T>, d: Scheme<T, K>) {
    forall i :: 0 <= i < |s| ==> d.normalize(s[i]) == s[i]
  }

  lemma CloneOfNormalized<T, K>(s: seq<T>, d: Scheme<T, K>)
    requires AllNormalized(s, d)
    ensures CloneAll(s, d) == s
  {
  }

  // ---------- The state machine ----------

  type Time = t: int | 0 < t witness 1

  /** `updatedAt` is 0 before the first update. */
  datatype Cache<T> = Cache(endpoints: seq<T>, updatedAt: int, lastErr: Option<nat>)

  /** The locked sections: a refresh or snapshot event, a failed refresh or watch, an upsert, a delete,
      and an event without its endpoint. */
  datatype Update<T> =
    | Replace(endpoints: seq<T>, now: Time)
    | Fail(err: nat)
    | Upsert(e: T, now: Time)
    | Delete(e: T, now: Time)
    | Ignore

  function Apply<T, K(==)>(c: Cache<T>, u: Update<T>, d: Scheme<T, K>): Cache<T> {
    match u
    case Replace(endpoints, now) => Cache(CloneAll(endpoints, d), now, None)
    case Fail(err) => c.(lastErr := Some(err))
    case Upsert(e, now) => c.(endpoints := Upserted(c.endpoints, e, d), updatedAt := now)
    case Delete(e, now) => c.(endpoints := Deleted(c.endpoints, e, d), updatedAt := now)
    case Ignore => c
  }

  /** What each update does. `k` is where an upsert writes: at the first element of its identity, else at the end. */
  lemma ApplyMeans<T, K>(c: Cache<T>, u: Update<T>, d: Scheme<T, K>) returns (k: nat)
    ensures var r := Apply(c, u, d);
            match u
            case Replace(es, now) =>
              && r == Cache(r.endpoints, now, None) && |r.endpoints| == |es|
              && forall i :: 0 <= i < |es| ==> r.endpoints[i] == d.normalize(es[i])
            case Fail(err) => r == c.(lastErr := Some(err))
            case Upsert(e, now) =>
              && r == c.(endpoints := r.endpoints, updatedAt := now) && k <= |c.endpoints|
              && (forall i :: 0 <= i < k ==> d.key(c.endpoints[i]) != d.key(d.normalize(e)))
              && (k < |c.endpoints| ==> d.key(c.endpoints[k]) == d.key(d.normalize(e)))
              && r.endpoints == if k < |c.endpoints| then c.endpoints[k := d.normalize(e)]
                                else c.endpoints + [d.normalize(e)]
            case Delete(e, now) =>
              && r == c.(endpoints := r.endpoints, updatedAt := now)
              && forall x :: x in r.endpoints <==> x in c.endpoints && d.key(x) != d.key(d.normalize(e))
            case Ignore => r == c
  {
    k := 0;
    match u
    case Upsert(e, now) => k := PutAt(c.endpoints, d.normalize(e), d.key);
    case Delete(e, now) => RemoveMembers(c.endpoints, d.key(d.normalize(e)), d.key);
    case _ =>
  }

  /** The state after a sequence of updates in commit order. */
  function Run<T, K(==)>(c: Cache<T>, us: seq<Update<T>>, d: Scheme<T, K>): Cache<T> {
    if us == [] then c else Apply(Run(c, us[..|us| - 1], d), us[|us| - 1], d)
  }

  lemma {:induction false} RunConcat<T, K>(c: Cache<T>, a: seq<Update<T>>, b: seq<Update<T>>, d: Scheme<T, K>)
    ensures Run(c, a + b, d) == Run(Run(c, a, d), b, d)
    decreases |b|
  {
    if b == [] {
      assert a + b == a;
    } else {
      assert (a + b)[..|a + b| - 1] == a + b[..|b| - 1];
      RunConcat(c, a, b[..|b| - 1], d);
    }
  }

  /** What every reachable state satisfies. */
  ghost predicate Reachable<T, K>(c: Cache<T>, d: Scheme<T, K>) {
    AllNormalized(c.endpoints, d) && 0 <= c.updatedAt && (c.endpoints != [] ==> c.updatedAt != 0)
  }

  lemma ApplyKeepsReachable<T(!new), K>(c: Cache<T>, u: Update<T>, d: Scheme<T, K>)
    requires Lawful(d) && Reachable(c, d)
    ensures Reachable(Apply(c, u, d), d)
  {
    match u
    case Replace(endpoints, now) =>
    case Upsert(e, now) =>
      var k := PutAt(c.endpoints, d.normalize(e), d.key);
    case Delete(e, now) =>
      var r := Deleted(c.endpoints, e, d);
      RemoveMembers(c.endpoints, d.key(d.normalize(e)), d.key);
      forall i | 0 <= i < |r| ensures d.normalize(r[i]) == r[i] {
        assert r[i] in r;
      }
    case _ =>
  }

  /** In every interleaving the cache holds normalized elements, and is dated once it holds any. */
  lemma {:induction false} RunKeepsReachable<T(!new), K>(c: Cache<T>, us: seq<Update<T>>, d: Scheme<T, K>)
    requires Lawful(d) && Reachable(c, d)
    ensures Reachable(Run(c, us, d), d)
  {
    if us == [] {
    } else {
      RunKeepsReachable(c, us[..|us| - 1], d);
      ApplyKeepsReachable(Run(c, us[..|us| - 1], d), us[|us| - 1], d);
    }
  }

  // ---------- The list refines a map keyed by identity ----------

  function ApplyToMap<T, K(==)>(m: map<K, T>, u: Update<T>, d: Scheme<T, K>): map<K, T> {
    match u
    case Replace(endpoints, now) => AsMap(CloneAll(endpoints, d), d.key)
    case Upsert(e, now) => m[d.key(d.normalize(e)) := d.normalize(e)]
    case Delete(e, now) => m - {d.key(d.normalize(e))}
    case _ => m
  }

  function RunOnMap<T, K(==)>(m: map<K, T>, us: seq<Update<T>>, d: Scheme<T, K>): map<K, T> {
    if us == [] then m else ApplyToMap(RunOnMap(m, us[..|us| - 1], d), us[|us| - 1], d)
  }

  ghost predicate Deduplicated<T, K>(u: Update<T>, d: Scheme<T, K>) {
    u.Replace? ==> Distinct(CloneAll(u.endpoints, d), d.key)
  }

  lemma ApplyRefines<T, K>(c: Cache<T>, u: Update<T>, d: Scheme<T, K>)
    requires Distinct(c.endpoints, d.key) && Deduplicated(u, d)
    ensures Distinct(Apply(c, u, d).endpoints, d.key)
    ensures AsMap(Apply(c, u, d).endpoints, d.key) == ApplyToMap(AsMap(c.endpoints, d.key), u, d)
  {
    match u
    case Upsert(e, now) =>
      PutDistinct(c.endpoints, d.normalize(e), d.key);
      PutRefines(c.endpoints, d.normalize(e), d.key);
    case Delete(e, now) =>
      RemoveDistinct(c.endpoints, d.key(d.normalize(e)), d.key);
      RemoveRefines(c.endpoints, d.key(d.normalize(e)), d.key);
    case _ =>
  }

  /** Under every interleaving of refreshes, snapshots, upserts and deletes whose full replacements have
      distinct identities, the list is the map that the same updates build, and stays free of duplicates. */
  lemma {:induction false} RunRefines<T, K>(c: Cache<T>, us: seq<Update<T>>, d: Scheme<T, K>)
    requires Distinct(c.endpoints, d.key)
    requires forall i :: 0 <= i < |us| ==> Deduplicated(us[i], d)
    ensures Distinct(Run(c, us, d).endpoints, d.key)
    ensures AsMap(Run(c, us, d).endpoints, d.key) == RunOnMap(AsMap(c.endpoints, d.key), us, d)
  {
    if us == [] {
    } else {
      var n := |us| - 1;
      RunRefines(c, us[..n], d);
      ApplyRefines(Run(c, us[..n], d), us[n], d);
    }
  }

  /** Only what was committed since the last full replacement counts. */
  lemma LastReplacementCounts<T, K>(
    c: Cache<T>, before: seq<Update<T>>, u: Update<T>, since: seq<Update<T>>, d: Scheme<T, K>)
    requires u.Replace?
    ensures Run(c, before + [u] + since, d) == Run(Cache(CloneAll(u.endpoints, d), u.now, None), since, d)
  {
    RunConcat(c, before + [u], since, d);
    assert (before + [u])[..|before|] == before;
  }

  /** Failures change neither the elements nor their date. */
  lemma FailureKeepsEndpoints<T, K>(
    c: Cache<T>, before: seq<Update<T>>, err: nat, after: seq<Update<T>>, d: Scheme<T, K>)
    ensures Run(c, before + [Fail(err)] + after, d).endpoints == Run(c, before + after, d).endpoints
    ensures Run(c, before + [Fail(err)] + after, d).updatedAt == Run(c, before + after, d).updatedAt
  {
    assert (before + [Fail(err)])[..|before|] == before;
    RunConcat(c, before + [Fail(err)], after, d);
    RunConcat(c, before, after, d);
    SameEndpointsStaySame(Run(c, before, d), Run(c, before + [Fail(err)], d), after, d);
  }

  lemma {:induction false} SameEndpointsStaySame<T, K>(c: Cache<T>, c': Cache<T>, us: seq<Update<T>>, d: Scheme<T, K>)
    requires c.endpoints == c'.endpoints && c.updatedAt == c'.updatedAt
    ensures Run(c, us, d).endpoints == Run(c', us, d).endpoints && Run(c, us, d).updatedAt == Run(c', us, d).updatedAt
  {
    if us == [] {
    } else {
      SameEndpointsStaySame(c, c', us[..|us| - 1], d);
    }
  }

  ghost predicate MadeFrom<T>(u: Update<T>, t: int) {
    match u
    case Replace(_, now) => t <= now
    case Upsert(_, now) => t <= now
    case Delete(_, now) => t <= now
    case _ => true
  }

  ghost predicate AllMadeFrom<T>(us: seq<Update<T>>, t: int) {
    forall i :: 0 <= i < |us| ==> MadeFrom(us[i], t)
  }

  /** Updates made at `t` or later leave a state updated at `t` or later. */
  lemma {:induction false} RunIsRecent<T, K>(c: Cache<T>, us: seq<Update<T>>, t: int, d: Scheme<T, K>)
    requires t <= c.updatedAt && AllMadeFrom(us, t)
    ensures t <= Run(c, us, d).updatedAt
  {
    if us == [] {
    } else {
      RunIsRecent(c, us[..|us| - 1], t, d);
    }
  }

  /** A full replacement keeps duplicates, and an upsert then replaces the first copy only. */
  lemma ReplacementKeepsDuplicates<T, K>(c: Cache<T>, e: T, newer: T, now: Time, d: Scheme<T, K>)
    requires d.normalize(newer) == newer && d.key(newer) == d.key(d.normalize(e))
    ensures !Distinct(Apply(c, Replace([e, e], now), d).endpoints, d.key)
    ensures Apply(Apply(c, Replace([e, e], now), d), Upsert(newer, now), d).endpoints == [newer, d.normalize(e)]
  {
    var n := d.normalize(e);
    assert CloneAll([e, e], d) == [n, n];
    assert d.key([n, n][0]) == d.key([n, n][1]);
    assert Put([n, n], newer, d.key) == [newer] + [n, n][1..] == [newer, n];
  }
}
