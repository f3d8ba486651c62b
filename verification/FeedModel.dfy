/** The event feed of a cache: what a registry change does to a cache that only hears of the first
    endpoint of the changed instance, compared with recomputing the cache from the registry. */
module FeedModel {
  import opened KeyedLists
  import opened Options

  /** Instances with an id, the endpoints each contributes, and the instance each endpoint identity belongs to. */
  datatype Feed<!I, !T, !K, !D> = Feed(id: I -> D, expand: I -> seq<T>, key: T -> K, owner: K -> D)

  ghost predicate Lawful<I(!new), T(!new), K, D>(f: Feed<I, T, K, D>) {
    forall i, x :: x in f.expand(i) ==> f.owner(f.key(x)) == f.id(i)
  }

  /** The cache recomputed from the registry. */
  function Recompute<I, T, K, D>(registry: seq<I>, f: Feed<I, T, K, D>): seq<T> {
    if registry == [] then [] else f.expand(registry[0]) + Recompute(registry[1..], f)
  }

  /** What the registry's version of the instance contributes. */
  function Contribution<I, T, K, D(==)>(registry: seq<I>, id: D, f: Feed<I, T, K, D>): seq<T> {
    if registry == [] then []
    else if f.id(registry[0]) == id then f.expand(registry[0])
    else Contribution(registry[1..], id, f)
  }

  ghost predicate Agrees<I, T, K, D>(cache: seq<T>, registry: seq<I>, f: Feed<I, T, K, D>) {
    multiset(cache) == multiset(Recompute(registry, f))
  }

  // ---------- Recomputing after a change ----------

  lemma RecomputeOne<I, T, K, D>(i: I, f: Feed<I, T, K, D>)
    ensures Recompute([], f) == [] && Recompute([i], f) == f.expand(i)
  {
    assert Recompute([i], f) == f.expand(i) + Recompute([], f);
  }

  lemma {:induction false} RecomputeConcat<I, T, K, D>(a: seq<I>, b: seq<I>, f: Feed<I, T, K, D>)
    ensures Recompute(a + b, f) == Recompute(a, f) + Recompute(b, f)
  {
    if a == [] {
      assert a + b == b;
    } else {
      assert (a + b)[1..] == a[1..] + b;
      RecomputeConcat(a[1..], b, f);
    }
  }

  /** Some instance of the registry contributes `x`, and is its owner. */
  ghost predicate Contributed<I, T, K, D>(registry: seq<I>, x: T, f: Feed<I, T, K, D>) {
    exists k :: 0 <= k < |registry| && x in f.expand(registry[k]) && f.owner(f.key(x)) == f.id(registry[k])
  }

  lemma {:induction false} RecomputeOwners<I(!new), T(!new), K, D>(registry: seq<I>, x: T, f: Feed<I, T, K, D>)
    requires Lawful(f) && x in Recompute(registry, f)
    ensures Contributed(registry, x, f)
  {
    assert registry != [];
    if x in f.expand(registry[0]) {
      assert f.owner(f.key(x)) == f.id(registry[0]);
    } else {
      RecomputeOwners(registry[1..], x, f);
      var k :| 0 <= k < |registry[1..]| && x in f.expand(registry[1..][k])
        && f.owner(f.key(x)) == f.id(registry[1..][k]);
      assert registry[k + 1] == registry[1..][k];
    }
  }

  /** The endpoints of an instance in the recomputed cache are exactly its contribution. */
  lemma {:induction false} OwnedByContribution<I(!new), T(!new), K, D>(registry: seq<I>, id: D, f: Feed<I, T, K, D>)
    requires Lawful(f) && Distinct(registry, f.id)
    ensures forall x | x in Recompute(registry, f) && f.owner(f.key(x)) == id :: x in Contribution(registry, id, f)
    ensures multiset(Contribution(registry, id, f)) <= multiset(Recompute(registry, f))
  {
    if registry == [] {
    } else {
      var rest := registry[1..];
      OwnedByContribution(rest, id, f);
      if f.id(registry[0]) == id {
        forall x | x in Recompute(rest, f) ensures f.owner(f.key(x)) != id {
          RecomputeOwners(rest, x, f);
          var k :| 0 <= k < |rest| && x in f.expand(rest[k]) && f.owner(f.key(x)) == f.id(rest[k]);
          assert registry[k + 1] == rest[k];
        }
      }
    }
  }

  lemma RecomputeHead<I, T, K, D>(i: I, rest: seq<I>, f: Feed<I, T, K, D>)
    ensures multiset(Recompute([i] + rest, f)) == multiset(f.expand(i)) + multiset(Recompute(rest, f))
  {
    assert ([i] + rest)[1..] == rest;
  }

  lemma Prepended<T>(h: multiset<T>, p: multiset<T>, b: multiset<T>, r: multiset<T>, a: multiset<T>)
    requires p + b == r + a
    ensures (h + p) + b == (h + r) + a
  {
    assert (h + p) + b == h + (p + b);
    assert (h + r) + a == h + (r + a);
  }

  lemma {:induction false} RecomputePut<I, T, K, D>(registry: seq<I>, i: I, f: Feed<I, T, K, D>)
    ensures multiset(Recompute(Put(registry, i, f.id), f)) + multiset(Contribution(registry, f.id(i), f))
            == multiset(Recompute(registry, f)) + multiset(f.expand(i))
  {
    if registry == [] {
      RecomputeHead(i, [], f);
    } else {
      var head, rest := registry[0], registry[1..];
      assert registry == [head] + rest;
      RecomputeHead(head, rest, f);
      if f.id(head) == f.id(i) {
        RecomputeHead(i, rest, f);
      } else {
        RecomputePut(rest, i, f);
        RecomputeHead(head, Put(rest, i, f.id), f);
        Prepended(multiset(f.expand(head)), multiset(Recompute(Put(rest, i, f.id), f)),
          multiset(Contribution(rest, f.id(i), f)),
                  multiset(Recompute(rest, f)), multiset(f.expand(i)));
      }
    }
  }

  lemma {:induction false} RecomputeRemove<I, T, K, D>(registry: seq<I>, id: D, f: Feed<I, T, K, D>)
    requires Distinct(registry, f.id)
    ensures multiset(Recompute(Remove(registry, id, f.id), f)) + multiset(Contribution(registry, id, f))
            == multiset(Recompute(registry, f))
  {
    if registry == [] {
    } else {
      var head, rest := registry[0], registry[1..];
      assert registry == [head] + rest;
      RecomputeHead(head, rest, f);
      if f.id(head) == id {
        NotBefore(registry, 0, f.id);
        assert registry[0 + 1..] == rest;
        RemoveAbsent(rest, id, f.id);
        assert [] + rest == rest;
      } else {
        RecomputeRemove(rest, id, f);
        RecomputeHead(head, Remove(rest, id, f.id), f);
      }
    }
  }

  // ---------- What the event does to the cache ----------

  /** An upsert event carries the first endpoint of the instance, if it has one. */
  function AfterUpsert<I, T, K(==), D>(cache: seq<T>, i: I, f: Feed<I, T, K, D>): seq<T> {
    if f.expand(i) == [] then cache else Put(cache, f.expand(i)[0], f.key)
  }

  /** A delete event carries the first endpoint of the version it has, if any. */
  function AfterDelete<T, K(==)>(cache: seq<T>, carried: Option<T>, key: T -> K): seq<T> {
    if carried.None? then cache else Remove(cache, key(carried.value), key)
  }

  /** Apart from the endpoints that the first new one replaces, the instance contributes what it did. */
  ghost predicate UpsertIsFaithful<T, K>(before: seq<T>, after: seq<T>, key: T -> K) {
    if after == [] then before == []
    else multiset(Remove(before, key(after[0]), key)) == multiset(after[1..])
  }

  /** All the instance contributed has the identity of the endpoint carried. */
  ghost predicate DeleteIsFaithful<T, K>(before: seq<T>, carried: Option<T>, key: T -> K) {
    forall x | x in before :: carried.Some? && key(x) == key(carried.value)
  }

  lemma SubsetDistinct<T, K>(a: seq<T>, b: seq<T>, key: T -> K)
    requires multiset(a) <= multiset(b) && Distinct(b, key)
    ensures Distinct(a, key)
  {
    forall i, j | 0 <= i < j < |a| ensures key(a[i]) != key(a[j]) {
      assert a == a[..i] + [a[i]] + a[i + 1..j] + [a[j]] + a[j + 1..];
      assert a[i] in multiset(b) && a[j] in multiset(b);
      var k :| 0 <= k < |b| && b[k] == a[i];
      var l :| 0 <= l < |b| && b[l] == a[j];
      if k == l {
        assert multiset(a)[a[i]] >= 2;
        OnlyOnce(b, k, key);
      }
    }
  }

  lemma OnlyOnce<T, K>(b: seq<T>, k: nat, key: T -> K)
    requires Distinct(b, key) && k < |b|
    ensures multiset(b)[b[k]] == 1
  {
    assert b == b[..k] + [b[k]] + b[k + 1..];
    NotBefore(b, k, key);
  }

  lemma Cancel<T>(a: multiset<T>, b: multiset<T>, c: multiset<T>)
    ensures a + c == b + c <==> a == b
  {
    assert (a + c) - c == a && (b + c) - c == b;
  }

  /** Both sides gain `x`; what tells them apart is the rest of what the instance contributes. */
  lemma Exchange<T>(
    c': multiset<T>, r': multiset<T>, b: multiset<T>, s: multiset<T>, e: multiset<T>, x: multiset<T>, c: multiset<T>)
    requires c' + b == c + x + e && r' + b == c + (x + s)
    ensures c' == r' <==> e == s
  {
    Cancel(c', r', b);
    Cancel(e, s, c + x);
    assert e + (c + x) == c + x + e;
    assert s + (c + x) == c + (x + s);
  }

  lemma Swap<T>(c: multiset<T>, b: multiset<T>, x: T, y: T)
    requires y in b && y in c
    ensures c - multiset{y} + multiset{x} + b == c + multiset{x} + (b - multiset{y})
  {
  }

  /** One upsert event keeps the cache in agreement with recomputation if and only if it is faithful. */
  lemma UpsertAgreesIff<I(!new), T(!new), K, D>(cache: seq<T>, registry: seq<I>, i: I, f: Feed<I, T, K, D>)
    requires Lawful(f) && Distinct(registry, f.id) && Distinct(cache, f.key) && Agrees(cache, registry, f)
    ensures Agrees(AfterUpsert(cache, i, f), Put(registry, i, f.id), f)
            <==> UpsertIsFaithful(Contribution(registry, f.id(i), f), f.expand(i), f.key)
  {
    var before, after := Contribution(registry, f.id(i), f), f.expand(i);
    RecomputePut(registry, i, f);
    if after == [] {
      NothingUpserted(multiset(cache), multiset(Recompute(Put(registry, i, f.id), f)), before);
    } else {
      UpsertChanges(cache, registry, i, f);
      FirstUpserted(multiset(cache), multiset(AfterUpsert(cache, i, f)),
                    multiset(Recompute(Put(registry, i, f.id), f)), before, after, f.key);
    }
  }

  /** Without an endpoint to tell of, the cache stays as it is. */
  lemma NothingUpserted<T>(c: multiset<T>, r': multiset<T>, before: seq<T>)
    requires r' + multiset(before) == c + multiset([])
    ensures c == r' <==> before == []
  {
    if before == [] {
      Cancel(c, r', multiset(before));
    } else {
      assert before[0] in multiset(before);
      assert (r' + multiset(before))[before[0]] > r'[before[0]];
    }
  }

  lemma FirstUpserted<T, K>(
    c: multiset<T>, c': multiset<T>, r': multiset<T>, before: seq<T>, after: seq<T>, key: T -> K)
    requires after != [] && r' + multiset(before) == c + multiset(after)
    requires c' + multiset(before) == c + multiset{after[0]} + multiset(Remove(before, key(after[0]), key))
    ensures c' == r' <==> UpsertIsFaithful(before, after, key)
  {
    assert after == [after[0]] + after[1..];
    Exchange(c', r', multiset(before), multiset(after[1..]), multiset(Remove(before, key(after[0]), key)),
             multiset{after[0]}, c);
  }

  /** The cache gains the first endpoint and loses what the instance contributed under its identity. */
  lemma UpsertChanges<I(!new), T(!new), K, D>(cache: seq<T>, registry: seq<I>, i: I, f: Feed<I, T, K, D>)
    requires Lawful(f) && Distinct(registry, f.id) && Distinct(cache, f.key) && Agrees(cache, registry, f)
    requires f.expand(i) != []
    ensures var x, before := f.expand(i)[0], Contribution(registry, f.id(i), f);
            multiset(AfterUpsert(cache, i, f)) + multiset(before)
            == multiset(cache) + multiset{x} + multiset(Remove(before, f.key(x), f.key))
  {
    var x, before := f.expand(i)[0], Contribution(registry, f.id(i), f);
    assert x in f.expand(i);
    SubsetOfCache(cache, registry, f.id(i), f);
    PutMultiset(cache, x, f.key);
    if y :| y in cache && f.key(y) == f.key(x) {
      assert y in before;
      RemoveMultiset(before, f.key(x), f.key);
      Swap(multiset(cache), multiset(before), x, y);
    } else {
      RemoveAbsent(before, f.key(x), f.key);
    }
  }

  /** In a cache that agrees, the endpoints of an instance are exactly its contribution. */
  lemma SubsetOfCache<I(!new), T(!new), K, D>(cache: seq<T>, registry: seq<I>, id: D, f: Feed<I, T, K, D>)
    requires Lawful(f) && Distinct(registry, f.id) && Distinct(cache, f.key) && Agrees(cache, registry, f)
    ensures Distinct(Contribution(registry, id, f), f.key)
    ensures forall x | x in cache && f.owner(f.key(x)) == id :: x in Contribution(registry, id, f)
    ensures forall x | x in Contribution(registry, id, f) :: x in cache
  {
    var before := Contribution(registry, id, f);
    OwnedByContribution(registry, id, f);
    SubsetDistinct(before, cache, f.key);
    forall x | x in cache && f.owner(f.key(x)) == id ensures x in before {
      assert x in multiset(cache);
      assert x in Recompute(registry, f);
    }
    forall x | x in before ensures x in cache {
      assert x in multiset(before);
      assert x in multiset(cache);
    }
  }

  /** One delete event keeps the agreement if and only if all the instance contributed has the identity carried. */
  lemma DeleteAgreesIff<I(!new), T(!new), K, D>(
    cache: seq<T>, registry: seq<I>, id: D, carried: Option<T>, f: Feed<I, T, K, D>)
    requires Lawful(f) && Distinct(registry, f.id) && Distinct(cache, f.key) && Agrees(cache, registry, f)
    requires carried.Some? ==> f.owner(f.key(carried.value)) == id
    ensures Agrees(AfterDelete(cache, carried, f.key), Remove(registry, id, f.id), f)
            <==> DeleteIsFaithful(Contribution(registry, id, f), carried, f.key)
  {
    var Y := DeleteChanges(cache, registry, id, carried, f);
    RecomputeRemove(registry, id, f);
    Leftovers(multiset(AfterDelete(cache, carried, f.key)), multiset(Recompute(Remove(registry, id, f.id), f)),
              multiset(Contribution(registry, id, f)), Y, multiset(cache));
  }

  /** The cache loses `gone`. */
  lemma DeleteChanges<I(!new), T(!new), K, D>(
    cache: seq<T>, registry: seq<I>, id: D, carried: Option<T>, f: Feed<I, T, K, D>)
    returns (gone: multiset<T>)
    requires Lawful(f) && Distinct(registry, f.id) && Distinct(cache, f.key) && Agrees(cache, registry, f)
    requires carried.Some? ==> f.owner(f.key(carried.value)) == id
    ensures multiset(AfterDelete(cache, carried, f.key)) + gone == multiset(cache)
    ensures gone == multiset(Contribution(registry, id, f))
            <==> DeleteIsFaithful(Contribution(registry, id, f), carried, f.key)
  {
    var before := Contribution(registry, id, f);
    SubsetOfCache(cache, registry, id, f);
    if y :| carried.Some? && y in cache && f.key(y) == f.key(carried.value) {
      gone := multiset{y};
      RemoveMultiset(cache, f.key(y), f.key);
      assert y in multiset(cache);
      assert y in before;
      OneKeyIffSingleton(before, y, f.key);
    } else {
      gone := multiset{};
      if carried.Some? { RemoveAbsent(cache, f.key(carried.value), f.key); }
      if before != [] { assert before[0] in before && before[0] in multiset(before); }
    }
  }

  lemma Leftovers<T>(d: multiset<T>, r': multiset<T>, b: multiset<T>, y: multiset<T>, c: multiset<T>)
    requires r' + b == c && d + y == c
    ensures d == r' <==> b == y
  {
    assert c - b == r' && c - y == d;
    if d == r' {
      assert c - d == y && c - r' == b;
    }
  }

  lemma OneKeyIffSingleton<T, K>(s: seq<T>, y: T, key: T -> K)
    requires Distinct(s, key) && y in s
    ensures multiset(s) == multiset{y} <==> forall x | x in s :: key(x) == key(y)
  {
    if forall x | x in s :: key(x) == key(y) {
      var k :| 0 <= k < |s| && s[k] == y;
      OnlyOnce(s, k, key);
      forall x | x in s ensures x == y {
        var i :| 0 <= i < |s| && s[i] == x;
      }
      assert forall x :: x in multiset(s) ==> x in s;
      assert multiset(s) == multiset{y};
    } else {
      var x :| x in s && key(x) != key(y);
      assert x in multiset(s);
    }
  }

  // ---------- Whole runs ----------

  /** A change of the registry: an instance written, or one deleted, whose event carries the endpoint of the
      version the registry still had. */
  datatype Change<I, T, D> = Written(i: I) | Deleted(id: D, carried: Option<T>)

  function Changed<I, T, K, D(==)>(registry: seq<I>, c: Change<I, T, D>, f: Feed<I, T, K, D>): seq<I> {
    match c
    case Written(i) => Put(registry, i, f.id)
    case Deleted(id, _) => Remove(registry, id, f.id)
  }

  function Told<I, T, K(==), D>(cache: seq<T>, c: Change<I, T, D>, f: Feed<I, T, K, D>): seq<T> {
    match c
    case Written(i) => AfterUpsert(cache, i, f)
    case Deleted(_, carried) => AfterDelete(cache, carried, f.key)
  }

  ghost predicate WellFormed<I, T, K, D>(c: Change<I, T, D>, f: Feed<I, T, K, D>) {
    c.Deleted? && c.carried.Some? ==> f.owner(f.key(c.carried.value)) == c.id
  }

  ghost predicate Faithful<I, T, K, D>(registry: seq<I>, c: Change<I, T, D>, f: Feed<I, T, K, D>) {
    match c
    case Written(i) => UpsertIsFaithful(Contribution(registry, f.id(i), f), f.expand(i), f.key)
    case Deleted(id, carried) => DeleteIsFaithful(Contribution(registry, id, f), carried, f.key)
  }

  lemma ToldStaysDistinct<I, T, K, D>(cache: seq<T>, c: Change<I, T, D>, f: Feed<I, T, K, D>)
    requires Distinct(cache, f.key)
    ensures Distinct(Told(cache, c, f), f.key)
  {
    match c
    case Written(i) =>
      if f.expand(i) != [] { PutDistinct(cache, f.expand(i)[0], f.key); }
    case Deleted(_, carried) =>
      if carried.Some? { RemoveDistinct(cache, f.key(carried.value), f.key); }
  }

  lemma ChangedStaysDistinct<I, T, K, D>(registry: seq<I>, c: Change<I, T, D>, f: Feed<I, T, K, D>)
    requires Distinct(registry, f.id)
    ensures Distinct(Changed(registry, c, f), f.id)
  {
    match c
    case Written(i) => PutDistinct(registry, i, f.id);
    case Deleted(id, _) => RemoveDistinct(registry, id, f.id);
  }

  /** One change keeps the agreement if and only if it is faithful. */
  lemma ChangeAgreesIff<I(!new), T(!new), K, D>(
    cache: seq<T>, registry: seq<I>, c: Change<I, T, D>, f: Feed<I, T, K, D>)
    requires Lawful(f) && Distinct(registry, f.id) && Distinct(cache, f.key) && Agrees(cache, registry, f)
             && WellFormed(c, f)
    ensures Agrees(Told(cache, c, f), Changed(registry, c, f), f) <==> Faithful(registry, c, f)
  {
    match c
    case Written(i) => UpsertAgreesIff(cache, registry, i, f);
    case Deleted(id, carried) => DeleteAgreesIff(cache, registry, id, carried, f);
  }

  function RegistryAfter<I, T, K, D(==)>(registry: seq<I>, cs: seq<Change<I, T, D>>, f: Feed<I, T, K, D>): seq<I> {
    if cs == [] then registry else Changed(RegistryAfter(registry, cs[..|cs| - 1], f), cs[|cs| - 1], f)
  }

  function CacheAfter<I, T, K(==), D>(cache: seq<T>, cs: seq<Change<I, T, D>>, f: Feed<I, T, K, D>): seq<T> {
    if cs == [] then cache else Told(CacheAfter(cache, cs[..|cs| - 1], f), cs[|cs| - 1], f)
  }

  ghost predicate AgreesAfter<I, T, K, D>(registry: seq<I>, cs: seq<Change<I, T, D>>, f: Feed<I, T, K, D>) {
    Agrees(CacheAfter(Recompute(registry, f), cs, f), RegistryAfter(registry, cs, f), f)
  }

  /** After every one of the changes. */
  ghost predicate AlwaysAgrees<I, T, K, D>(registry: seq<I>, cs: seq<Change<I, T, D>>, f: Feed<I, T, K, D>) {
    AgreesAfter(registry, cs, f) && (cs == [] || AlwaysAgrees(registry, cs[..|cs| - 1], f))
  }

  /** Each where it happens. */
  ghost predicate AlwaysFaithful<I, T, K, D>(registry: seq<I>, cs: seq<Change<I, T, D>>, f: Feed<I, T, K, D>) {
    cs == [] ||
    (AlwaysFaithful(registry, cs[..|cs| - 1], f)
      && Faithful(RegistryAfter(registry, cs[..|cs| - 1], f), cs[|cs| - 1], f))
  }

  lemma {:induction false} RunStaysDistinct<I, T, K, D>(
    registry: seq<I>, cache: seq<T>, cs: seq<Change<I, T, D>>, f: Feed<I, T, K, D>)
    requires Distinct(registry, f.id) && Distinct(cache, f.key)
    ensures Distinct(RegistryAfter(registry, cs, f), f.id) && Distinct(CacheAfter(cache, cs, f), f.key)
  {
    if cs == [] {
    } else {
      var init := cs[..|cs| - 1];
      RunStaysDistinct(registry, cache, init, f);
      ToldStaysDistinct(CacheAfter(cache, init, f), cs[|cs| - 1], f);
      ChangedStaysDistinct(RegistryAfter(registry, init, f), cs[|cs| - 1], f);
    }
  }

  /** From a snapshot of distinct identities on, the cache agrees with recomputation after every change
      if and only if every change is faithful. */
  lemma {:induction false} RunAgreesIff<I(!new), T(!new), K, D>(
    registry: seq<I>, cs: seq<Change<I, T, D>>, f: Feed<I, T, K, D>)
    requires Lawful(f) && Distinct(registry, f.id) && Distinct(Recompute(registry, f), f.key)
    requires forall n :: 0 <= n < |cs| ==> WellFormed(cs[n], f)
    ensures AlwaysAgrees(registry, cs, f) <==> AlwaysFaithful(registry, cs, f)
  {
    if cs == [] {
    } else {
      var init, last := cs[..|cs| - 1], cs[|cs| - 1];
      RunAgreesIff(registry, init, f);
      if AgreesAfter(registry, init, f) {
        var r, c := RegistryAfter(registry, init, f), CacheAfter(Recompute(registry, f), init, f);
        RunStaysDistinct(registry, Recompute(registry, f), init, f);
        ChangeAgreesIff(c, r, last, f);
      } else {
        NotAlways(registry, init, f);
      }
    }
  }

  lemma NotAlways<I, T, K, D>(registry: seq<I>, cs: seq<Change<I, T, D>>, f: Feed<I, T, K, D>)
    requires !AgreesAfter(registry, cs, f)
    ensures !AlwaysAgrees(registry, cs, f)
  {
  }

  /** Of an instance with at most one endpoint before and after, an upsert is faithful exactly when the endpoint
      that was there is still there under its identity. */
  lemma SingleUpsertIsFaithfulIff<T, K>(before: seq<T>, after: seq<T>, key: T -> K)
    requires |before| <= 1 && |after| <= 1
    ensures UpsertIsFaithful(before, after, key) <==> (before != [] ==> after != [] && key(after[0]) == key(before[0]))
  {
    if before != [] && after != [] {
      assert before == [before[0]] && after == [after[0]];
      assert Remove(before, key(after[0]), key) == if key(before[0]) == key(after[0]) then [] else before;
      assert |multiset(Remove(before, key(after[0]), key))| == |Remove(before, key(after[0]), key)|;
    }
  }

  // ---------- Comparing registries ----------

  lemma {:induction false} MultiplicityIs<I(!new), T(!new), K, D>(registry: seq<I>, x: T, f: Feed<I, T, K, D>)
    requires Lawful(f) && Distinct(registry, f.id)
    ensures multiset(Recompute(registry, f))[x] == multiset(Contribution(registry, f.owner(f.key(x)), f))[x]
  {
    if registry == [] {
    } else {
      var head, rest, id := registry[0], registry[1..], f.owner(f.key(x));
      assert registry == [head] + rest;
      RecomputeHead(head, rest, f);
      MultiplicityIs(rest, x, f);
      if f.id(head) == id {
        NotOwnedByTheRest(registry, x, f);
      } else {
        assert x !in f.expand(head);
      }
    }
  }

  lemma NotOwnedByTheRest<I(!new), T(!new), K, D>(registry: seq<I>, x: T, f: Feed<I, T, K, D>)
    requires Lawful(f) && Distinct(registry, f.id) && registry != [] && f.id(registry[0]) == f.owner(f.key(x))
    ensures x !in Recompute(registry[1..], f)
  {
    var rest := registry[1..];
    forall y | y in Recompute(rest, f) ensures f.owner(f.key(y)) != f.id(registry[0]) {
      RecomputeOwners(rest, y, f);
      var k :| 0 <= k < |rest| && y in f.expand(rest[k]) && f.owner(f.key(y)) == f.id(rest[k]);
      assert rest[k] == registry[k + 1];
    }
  }

  lemma {:induction false} ContributionIsOwned<I(!new), T(!new), K, D>(
    registry: seq<I>, id: D, x: T, f: Feed<I, T, K, D>)
    requires Lawful(f) && x in Contribution(registry, id, f)
    ensures f.owner(f.key(x)) == id
  {
    if f.id(registry[0]) == id {
      assert x in f.expand(registry[0]);
    } else {
      ContributionIsOwned(registry[1..], id, x, f);
    }
  }

  ghost predicate SameContributions<I, T, K, D(!new)>(a: seq<I>, b: seq<I>, f: Feed<I, T, K, D>) {
    forall id :: multiset(Contribution(a, id, f)) == multiset(Contribution(b, id, f))
  }

  /** Two registries recompute to the same cache, up to order, if and only if every instance contributes the same. */
  lemma RecomputeSameIff<I(!new), T(!new), K, D(!new)>(a: seq<I>, b: seq<I>, f: Feed<I, T, K, D>)
    requires Lawful(f) && Distinct(a, f.id) && Distinct(b, f.id)
    ensures multiset(Recompute(a, f)) == multiset(Recompute(b, f)) <==> SameContributions(a, b, f)
  {
    forall x ensures multiset(Recompute(a, f))[x] == multiset(Contribution(a, f.owner(f.key(x)), f))[x]
             ensures multiset(Recompute(b, f))[x] == multiset(Contribution(b, f.owner(f.key(x)), f))[x] {
      MultiplicityIs(a, x, f);
      MultiplicityIs(b, x, f);
    }
    if SameContributions(a, b, f) {
      forall x ensures multiset(Recompute(a, f))[x] == multiset(Recompute(b, f))[x] {
        assert multiset(Contribution(a, f.owner(f.key(x)), f)) == multiset(Contribution(b, f.owner(f.key(x)), f));
      }
    }
    if multiset(Recompute(a, f)) == multiset(Recompute(b, f)) {
      forall id ensures multiset(Contribution(a, id, f)) == multiset(Contribution(b, id, f)) {
        SameRecomputeSameContribution(a, b, id, f);
      }
    }
  }

  lemma SameRecomputeSameContribution<I(!new), T(!new), K, D>(a: seq<I>, b: seq<I>, id: D, f: Feed<I, T, K, D>)
    requires Lawful(f) && Distinct(a, f.id) && Distinct(b, f.id)
    requires multiset(Recompute(a, f)) == multiset(Recompute(b, f))
    ensures multiset(Contribution(a, id, f)) == multiset(Contribution(b, id, f))
  {
    var A, B := multiset(Contribution(a, id, f)), multiset(Contribution(b, id, f));
    forall x ensures A[x] == B[x] {
      MultiplicityIs(a, x, f);
      MultiplicityIs(b, x, f);
      if x in A { ContributionIsOwned(a, id, x, f); }
      if x in B { ContributionIsOwned(b, id, x, f); }
    }
  }
}
