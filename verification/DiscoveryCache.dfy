/** The cached resolver: the list lives in a backing array that updates write in place,
    and callers get copies of it. */
module DiscoveryCache {
  import opened CacheModel
  import opened KeyedLists
  import opened Options

  const DEFAULT_STALE_TTL: int := 60_000_000_000

  /** What the base resolver answered to a refresh. */
  datatype Answer<T> = Endpoints(list: seq<T>) | Error(err: nat)

  datatype Resolved<T> = Found(list: array<T>) | Failed(err: nat) | NoAvailableEndpoint

  /** Whether data of this age may be served without a refresh. */
  predicate Fresh<T>(c: Cache<T>, staleTTL: int, now: int) {
    !(staleTTL > 0 && c.updatedAt != 0 && now - c.updatedAt > staleTTL)
  }

  // ---------- Updates of a backing array ----------

  /** Replaces the first of the `len` elements that has the key of `x`, in place. */
  method PutInPlace<T, K(==)>(a: array<T>, len: nat, x: T, key: T -> K) returns (found: bool)
    requires len <= a.Length
    modifies a
    ensures found ==> a[..len] == Put(old(a[..len]), x, key)
    ensures !found ==> a[..len] == old(a[..len]) && Put(a[..len], x, key) == a[..len] + [x]
  {
    ghost var before := a[..len];
    ghost var k := PutAt(before, x, key);
    for i := 0 to len
      invariant a[..len] == before && i <= k
    {
      if key(a[i]) == key(x) {
        a[i] := x;
        assert a[..len] == before[i := x];
        return true;
      }
    }
    found := false;
  }

  /** Compacts the `len` elements in place: every element of another key is written behind the position
      being read, so that nothing is overwritten before it has been read. */
  method RemoveInPlace<T, K(==)>(a: array<T>, len: nat, k: K, key: T -> K) returns (kept: nat)
    requires len <= a.Length
    modifies a
    ensures kept <= len && a[..kept] == Remove(old(a[..len]), k, key)
  {
    ghost var before := a[..len];
    kept := 0;
    for i := 0 to len
      invariant kept <= i
      invariant a[..kept] == Remove(before[..i], k, key)
      invariant forall j :: i <= j < len ==> a[j] == before[j]
    {
      var existing := a[i];
      assert existing == before[i];
      ghost var sofar := a[..kept];
      RemoveNext(before, i, k, key);
      if key(existing) == k {
        assert sofar == Remove(before[..i + 1], k, key);
        continue;
      }
      a[kept] := existing;
      kept := kept + 1;
      assert a[..kept] == sofar + [existing];
    }
    assert before[..len] == before;
  }

  /** Appending writes into spare capacity when there is some, and moves to a larger array otherwise. */
  method AppendTo<T(0)>(a: array<T>, len: nat, x: T) returns (b: array<T>)
    requires len <= a.Length
    modifies a
    ensures len < b.Length && b[..len + 1] == old(a[..len]) + [x]
    ensures b == a || (fresh(b) && a[..] == old(a[..]))
  {
    if len < a.Length {
      a[len] := x;
      return a;
    }
    var spare: nat :| 0 <= spare;
    b := new T[len + 1 + spare];
    for i := 0 to len
      invariant b[..i] == a[..i] && a[..] == old(a[..])
    {
      b[i] := a[i];
    }
    b[len] := x;
  }

  // ---------- The resolver ----------

  class CachedResolver<T(0), K(==)> {
    const scheme: Scheme<T, K>
    const staleTTL: int
    var data: array<T>
    var len: nat
    var updatedAt: int
    var lastErr: Option<nat>
    /** Every list handed out so far. */
    ghost var lent: set<array<T>>

    ghost predicate Valid()
      reads this, data
    {
      len <= data.Length && data !in lent && 0 < staleTTL
    }

    ghost function Abs(): Cache<T>
      reads this, data
      requires len <= data.Length
    {
      Cache(data[..len], updatedAt, lastErr)
    }

    constructor (scheme: Scheme<T, K>, ttl: int)
      ensures Valid() && Abs() == Cache([], 0, None) && lent == {} && fresh(data)
      ensures this.scheme == scheme && staleTTL == if ttl > 0 then ttl else 60_000_000_000
    {
      this.scheme := scheme;
      staleTTL := if ttl > 0 then ttl else DEFAULT_STALE_TTL;
      data := new T[0];
      len, updatedAt, lastErr, lent := 0, 0, None, {};
    }

    // ---------- Locked sections ----------

    method CloneEndpoints(values: seq<T>) returns (copied: array<T>)
      ensures fresh(copied) && copied[..] == CloneAll(values, scheme)
    {
      copied := new T[|values|](i requires 0 <= i < |values| => scheme.normalize(values[i]));
    }

    method ReplaceAll(endpoints: seq<T>, now: Time)
      requires Valid()
      modifies this
      ensures Valid() && Abs() == Apply(old(Abs()), Replace(endpoints, now), scheme)
      ensures lent == old(lent) && fresh(data)
    {
      var copied := CloneEndpoints(endpoints);
      data, len, updatedAt, lastErr := copied, copied.Length, now, None;
      assert data[..len] == data[..];
    }

    method SetError(err: nat)
      requires Valid()
      modifies this`lastErr
      ensures Valid() && Abs() == Apply(old(Abs()), Fail(err), scheme)
    {
      lastErr := Some(err);
    }

    method UpsertEndpoint(e: T, now: Time)
      requires Valid()
      modifies this, data
      ensures Valid() && Abs() == Apply(old(Abs()), Upsert(e, now), scheme)
      ensures lent == old(lent) && (data == old(data) || fresh(data))
    {
      var endpoint := scheme.normalize(e);
      var found := PutInPlace(data, len, endpoint, scheme.key);
      if !found {
        data := AppendTo(data, len, endpoint);
        len := len + 1;
      }
      updatedAt := now;
    }

    method DeleteEndpoint(e: T, now: Time)
      requires Valid()
      modifies this, data
      ensures Valid() && Abs() == Apply(old(Abs()), Delete(e, now), scheme)
      ensures lent == old(lent) && fresh(data)
    {
      var kept := RemoveInPlace(data, len, scheme.key(scheme.normalize(e)), scheme.key);
      var copied := new T[kept](i requires 0 <= i < kept && kept <= data.Length reads this, data => data[i]);
      assert copied[..] == data[..kept];
      data, len, updatedAt := copied, kept, now;
      assert data[..len] == data[..];
    }

    method Perform(u: Update<T>)
      requires Valid()
      modifies this, data
      ensures Valid() && Abs() == Apply(old(Abs()), u, scheme)
      ensures lent == old(lent) && (data == old(data) || fresh(data))
    {
      match u
      case Replace(endpoints, now) => ReplaceAll(endpoints, now);
      case Fail(err) => SetError(err);
      case Upsert(e, now) => UpsertEndpoint(e, now);
      case Delete(e, now) => DeleteEndpoint(e, now);
      case Ignore =>
    }

    /** A copy of the list, unless it is empty or too old for the caller. */
    method Snapshot(allowStale: bool, now: int) returns (list: Option<array<T>>)
      requires Valid()
      modifies this`lent
      ensures Valid() && Abs() == old(Abs()) && data == old(data)
      ensures list.Some? <==> len != 0 && (allowStale || updatedAt == 0 || now - updatedAt <= staleTTL)
      ensures list.Some? ==> fresh(list.value) && list.value.Length == len
                             && forall i :: 0 <= i < len ==> list.value[i] == scheme.normalize(data[i])
      ensures lent == old(lent) + if list.Some? then {list.value} else {}
    {
      if len == 0 {
        return None;
      }
      if !allowStale && staleTTL > 0 && updatedAt != 0 && now - updatedAt > staleTTL {
        return None;
      }
      var copied := CloneEndpoints(data[..len]);
      lent := lent + {copied};
      list := Some(copied);
    }

    // ---------- Resolving ----------

    /** What other callers and the background loops commit in the meantime. Lists handed out never change. */
    method Interfere(us: seq<Update<T>>)
      requires Valid()
      modifies this, data
      ensures Valid() && Abs() == Run(old(Abs()), us, scheme)
      ensures lent == old(lent) && (data == old(data) || fresh(data))
      ensures forall a | a in lent :: a[..] == old(a[..])
    {
      for i := 0 to |us|
        invariant Valid() && Abs() == Run(old(Abs()), us[..i], scheme)
        invariant lent == old(lent) && (data == old(data) || fresh(data))
        invariant forall a | a in lent :: a[..] == old(a[..])
      {
        assert us[..i + 1][..i] == us[..i];
        Perform(us[i]);
      }
      assert us[..|us|] == us;
    }

    /** Resolves at time `looked`: a fresh list is served as it is; otherwise the base resolver is asked, without
        the lock, its answer is committed at time `committed`, and what the cache holds then is served.
        `during` and `after` are what others commit between these sections. */
    method Resolve(looked: int, during: seq<Update<T>>, answer: Answer<T>, committed: Time, after: seq<Update<T>>)
      returns (r: Resolved<T>)
      requires Valid()
      modifies this, data
      ensures Valid()
      ensures Abs() == Resolution(old(Abs()), scheme, staleTTL, looked, during, answer, committed, after)
      // what is young enough is served as it is, whatever others do meanwhile and the base resolver would answer
      ensures old(len) != 0 && looked - old(updatedAt) <= staleTTL ==>
                && Abs() == old(Abs()) && r.Found? && r.list.Length == old(len)
                && forall i :: 0 <= i < old(len) ==> r.list[i] == scheme.normalize(old(data[i]))
      // otherwise the base resolver's answer is committed
      ensures old(len) == 0 || (old(updatedAt) != 0 && looked - old(updatedAt) > staleTTL) ==>
                Abs() == if answer.Endpoints?
                         then Run(old(Abs()), during + [Replace(answer.list, committed)] + after, scheme)
                         else Run(old(Abs()), during + [Fail(answer.err)] + after, scheme)
      ensures r.Found? ==> fresh(r.list) && r.list in lent && r.list[..] == CloneAll(Abs().endpoints, scheme)
      ensures r.Found? <==> Abs().endpoints != []
      ensures r.Failed? ==> answer == Error(r.err)
      ensures r.NoAvailableEndpoint? ==> answer.Endpoints?
      ensures old(lent) <= lent && (data == old(data) || fresh(data))
      ensures forall a | a in old(lent) :: a[..] == old(a[..])
    {
      var list := Snapshot(false, looked);
      if list.Some? {
        return Found(list.value);
      }
      Interfere(during);
      ghost var mid := Abs();
      var u := match answer case Endpoints(values) => Replace(values, committed) case Error(err) => Fail(err);
      Perform(u);
      Interfere(after);
      RunConcat(old(Abs()), during, [u], scheme);
      assert (during + [u])[..|during|] == during;
      RunConcat(old(Abs()), during + [u], after, scheme);
      list := Snapshot(true, committed);
      if list.Some? {
        return Found(list.value);
      }
      r := match answer case Endpoints(_) => NoAvailableEndpoint case Error(err) => Failed(err);
    }
  }

  /** The state in which a resolve takes its last look. */
  function Resolution<T, K(==)>(c: Cache<T>, d: Scheme<T, K>, staleTTL: int, looked: int, during: seq<Update<T>>,
                                answer: Answer<T>, committed: Time, after: seq<Update<T>>): Cache<T>
  {
    if c.endpoints != [] && Fresh(c, staleTTL, looked) then c
    else
      var u := match answer case Endpoints(values) => Replace(values, committed) case Error(err) => Fail(err);
      Run(c, during + [u] + after, d)
  }

  /** A resolve serves data older than the limit only when its own refresh failed: what it serves was young enough
      when it looked, or was updated no earlier than this call's own refresh. A failed refresh leaves the elements to
      others. */
  lemma ServesFreshData<T(!new), K>(c: Cache<T>, d: Scheme<T, K>, staleTTL: int, looked: int, during: seq<Update<T>>,
                                    answer: Answer<T>, committed: Time, after: seq<Update<T>>)
    requires Lawful(d) && Reachable(c, d) && 0 < staleTTL && AllMadeFrom(after, committed)
    ensures var last := Resolution(c, d, staleTTL, looked, during, answer, committed, after);
            && Reachable(last, d) && CloneAll(last.endpoints, d) == last.endpoints
            && (answer.Endpoints? && last.endpoints != []
               ==> looked - last.updatedAt <= staleTTL || committed <= last.updatedAt)
            && (answer.Error? && !(c.endpoints != [] && Fresh(c, staleTTL, looked)) ==>
                  last.endpoints == Run(c, during + after, d).endpoints)
  {
    var last := Resolution(c, d, staleTTL, looked, during, answer, committed, after);
    var u := match answer case Endpoints(values) => Replace(values, committed) case Error(err) => Fail(err);
    RunKeepsReachable(c, during + [u] + after, d);
    CloneOfNormalized(last.endpoints, d);
    match answer
    case Endpoints(values) =>
      LastReplacementCounts(c, during, u, after, d);
      RunIsRecent(Cache(CloneAll(values, d), committed, None), after, committed, d);
    case Error(err) =>
      FailureKeepsEndpoints(c, during, err, after, d);
  }
}
