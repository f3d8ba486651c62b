/** Lists whose elements are identified by a key: replacing the first element of a key, removing a key,
    and the map such a list stands for when its keys are distinct. */
module KeyedLists {

  /** Replaces the first element with the key of `x`, or appends `x`. */
  function Put<T, K(==)>(s: seq<T>, x: T, key: T -> K): seq<T> {
    if s == [] then [x]
    else if key(s[0]) == key(x) then [x] + s[1..]
    else [s[0]] + Put(s[1..], x, key)
  }

  /** The elements of any other key. */
  function Remove<T, K(==)>(s: seq<T>, k: K, key: T -> K): seq<T> {
    if s == [] then [] else (if key(s[0]) == k then [] else [s[0]]) + Remove(s[1..], k, key)
  }

  lemma {:induction false} RemoveMembers<T, K>(s: seq<T>, k: K, key: T -> K)
    ensures |Remove(s, k, key)| <= |s|
    ensures forall x | x in Remove(s, k, key) :: x in s && key(x) != k
    ensures forall x | x in s && key(x) != k :: x in Remove(s, k, key)
  {
    if s == [] {
    } else {
      RemoveMembers(s[1..], k, key);
    }
  }

  ghost predicate Distinct<T, K>(s: seq<T>, key: T -> K) {
    forall i, j :: 0 <= i < j < |s| ==> key(s[i]) != key(s[j])
  }

  /** `k` is the position at which `Put` writes. */
  lemma {:induction false} PutAt<T, K>(s: seq<T>, x: T, key: T -> K) returns (k: nat)
    ensures k <= |s| && forall i :: 0 <= i < k ==> key(s[i]) != key(x)
    ensures k < |s| ==> key(s[k]) == key(x) && Put(s, x, key) == s[k := x]
    ensures k == |s| ==> Put(s, x, key) == s + [x]
  {
    if s == [] || key(s[0]) == key(x) {
      k := 0;
      assert s != [] ==> s[0 := x] == [x] + s[1..];
    } else {
      k := PutAt(s[1..], x, key);
      k := k + 1;
      assert s == [s[0]] + s[1..];
      assert k < |s| ==> s[k := x] == [s[0]] + s[1..][k - 1 := x];
    }
  }

  /** Without the key among the elements, `Put` appends. */
  lemma {:induction false} PutAppends<T, K>(s: seq<T>, x: T, key: T -> K)
    requires forall y | y in s :: key(y) != key(x)
    ensures Put(s, x, key) == s + [x]
  {
    if s == [] {
    } else {
      PutAppends(s[1..], x, key);
      assert s == [s[0]] + s[1..];
    }
  }

  lemma {:induction false} RemoveConcat<T, K>(a: seq<T>, b: seq<T>, k: K, key: T -> K)
    ensures Remove(a + b, k, key) == Remove(a, k, key) + Remove(b, k, key)
  {
    if a == [] {
      assert a + b == b;
    } else {
      assert (a + b)[1..] == a[1..] + b;
      RemoveConcat(a[1..], b, k, key);
    }
  }

  lemma RemoveNext<T, K>(s: seq<T>, i: nat, k: K, key: T -> K)
    requires i < |s|
    ensures Remove(s[..i + 1], k, key) == Remove(s[..i], k, key) + if key(s[i]) == k then [] else [s[i]]
  {
    assert s[..i + 1] == s[..i] + [s[i]];
    RemoveConcat(s[..i], [s[i]], k, key);
  }

  lemma {:induction false} RemoveAbsent<T, K>(s: seq<T>, k: K, key: T -> K)
    requires forall x | x in s :: key(x) != k
    ensures Remove(s, k, key) == s
  {
    if s == [] {
    } else {
      RemoveAbsent(s[1..], k, key);
    }
  }

  lemma {:induction false} RemoveDistinct<T, K>(s: seq<T>, k: K, key: T -> K)
    requires Distinct(s, key)
    ensures Distinct(Remove(s, k, key), key)
  {
    if s == [] {
    } else {
      RemoveDistinct(s[1..], k, key);
      RemoveMembers(s[1..], k, key);
      forall x | x in Remove(s[1..], k, key) ensures key(x) != key(s[0]) {
        var i :| 0 <= i < |s[1..]| && s[1..][i] == x;
        assert s[i + 1] == x;
      }
    }
  }

  lemma PutDistinct<T, K>(s: seq<T>, x: T, key: T -> K)
    requires Distinct(s, key)
    ensures Distinct(Put(s, x, key), key)
  {
    var k := PutAt(s, x, key);
  }

  /** With distinct keys, nothing else of the key of `x` is left. */
  lemma PutLeavesNoOther<T, K>(s: seq<T>, x: T, key: T -> K)
    requires Distinct(s, key)
    ensures forall y | y in Put(s, x, key) && key(y) == key(x) :: y == x
  {
    var k := PutAt(s, x, key);
  }

  /** Of two elements of one key, `Put` leaves the second where it is. */
  lemma PutMissesTheSecond<T, K>(s: seq<T>, i: nat, j: nat, x: T, key: T -> K)
    requires i < j < |s| && key(s[i]) == key(s[j]) == key(x)
    ensures s[j] in Put(s, x, key)
  {
    var k := PutAt(s, x, key);
    assert k <= i;
    assert Put(s, x, key)[j] == s[j];
  }

  // ---------- As a map ----------

  function AsMap<T, K(==)>(s: seq<T>, key: T -> K): map<K, T> {
    if s == [] then map[] else AsMap(s[..|s| - 1], key)[key(s[|s| - 1]) := s[|s| - 1]]
  }

  /** The map of a list of distinct keys holds exactly its elements. */
  lemma {:induction false} AsMapIs<T, K>(s: seq<T>, key: T -> K)
    requires Distinct(s, key)
    ensures forall x | x in s :: key(x) in AsMap(s, key) && AsMap(s, key)[key(x)] == x
    ensures forall k | k in AsMap(s, key) :: AsMap(s, key)[k] in s && key(AsMap(s, key)[k]) == k
  {
    if s == [] {
    } else {
      var n := |s| - 1;
      AsMapIs(s[..n], key);
      NotBefore(s, n, key);
      assert s == s[..n] + [s[n]];
    }
  }

  lemma NotBefore<T, K>(s: seq<T>, n: nat, key: T -> K)
    requires Distinct(s, key) && n < |s|
    ensures forall x | x in s[..n] :: key(x) != key(s[n])
    ensures forall x | x in s[n + 1..] :: key(x) != key(s[n])
  {
    forall x | x in s[..n] ensures key(x) != key(s[n]) {
      var i :| 0 <= i < n && s[..n][i] == x;
      assert s[i] == x;
    }
    forall x | x in s[n + 1..] ensures key(x) != key(s[n]) {
      var i :| 0 <= i < |s| - n - 1 && s[n + 1..][i] == x;
      assert s[n + 1 + i] == x;
    }
  }

  /** Two maps of lists are compared through their elements. */
  lemma MapsAgree<T, K>(s: seq<T>, key: T -> K, m: map<K, T>)
    requires Distinct(s, key)
    requires forall x | x in s :: key(x) in m && m[key(x)] == x
    requires forall k | k in m :: m[k] in s && key(m[k]) == k
    ensures AsMap(s, key) == m
  {
    AsMapIs(s, key);
    forall k | k in m ensures k in AsMap(s, key) && AsMap(s, key)[k] == m[k] {
      assert m[k] in s;
    }
    forall k | k in AsMap(s, key) ensures k in m {
      assert AsMap(s, key)[k] in s;
    }
  }

  /** On a list of distinct keys, `Put` writes one key of the map. */
  lemma PutRefines<T, K>(s: seq<T>, x: T, key: T -> K)
    requires Distinct(s, key)
    ensures AsMap(Put(s, x, key), key) == AsMap(s, key)[key(x) := x]
  {
    PutDistinct(s, x, key);
    AsMapIs(s, key);
    var k := PutAt(s, x, key);
    var r, m := Put(s, x, key), AsMap(s, key)[key(x) := x];
    assert r[k] == x;
    forall y | y in r ensures key(y) in m && m[key(y)] == y {
      var i :| 0 <= i < |r| && r[i] == y;
      if i != k { assert s[i] in s; }
    }
    forall j | j in m ensures m[j] in r && key(m[j]) == j {
      if j != key(x) {
        var i :| 0 <= i < |s| && s[i] == m[j];
        assert r[i] == s[i];
      }
    }
    MapsAgree(r, key, m);
  }

  /** On a list of distinct keys, `Remove` removes one key of the map. */
  lemma RemoveRefines<T, K>(s: seq<T>, k: K, key: T -> K)
    requires Distinct(s, key)
    ensures AsMap(Remove(s, k, key), key) == AsMap(s, key) - {k}
  {
    RemoveDistinct(s, k, key);
    RemoveMembers(s, k, key);
    AsMapIs(s, key);
    MapsAgree(Remove(s, k, key), key, AsMap(s, key) - {k});
  }

  // ---------- As a multiset ----------

  /** `Put` swaps the element of the key for `x`, or adds `x`. */
  lemma PutMultiset<T, K>(s: seq<T>, x: T, key: T -> K)
    requires Distinct(s, key)
    ensures (forall y | y in s :: key(y) != key(x)) ==> multiset(Put(s, x, key)) == multiset(s) + multiset{x}
    ensures forall y | y in s && key(y) == key(x) :: multiset(Put(s, x, key)) == multiset(s) - multiset{y} + multiset{x}
  {
    var k := PutAt(s, x, key);
    if k < |s| {
      assert s == s[..k] + [s[k]] + s[k + 1..];
      assert s[k := x] == s[..k] + [x] + s[k + 1..];
      forall y | y in s && key(y) == key(x) ensures y == s[k] {
        var i :| 0 <= i < |s| && s[i] == y;
      }
      assert s[k] in s;
    }
  }

  lemma RestWithout<T>(head: T, rest: seq<T>, less: seq<T>, y: T)
    requires y in [head] + rest && y != head && multiset(less) == multiset(rest) - multiset{y}
    ensures multiset([head] + less) == multiset([head] + rest) - multiset{y}
  {
    assert y in multiset(rest);
  }

  lemma {:induction false} RemoveMultiset<T, K>(s: seq<T>, k: K, key: T -> K)
    requires Distinct(s, key)
    ensures forall y | y in s && key(y) == k :: multiset(Remove(s, k, key)) == multiset(s) - multiset{y}
  {
    if s == [] {
    } else {
      var head, rest := s[0], s[1..];
      assert s == [head] + rest;
      assert s[0 + 1..] == rest;
      NotBefore(s, 0, key);
      if key(head) == k {
        RemoveAbsent(rest, k, key);
      } else {
        RemoveMultiset(rest, k, key);
        forall y | y in s && key(y) == k ensures multiset(Remove(s, k, key)) == multiset(s) - multiset{y} {
          RestWithout(head, rest, Remove(rest, k, key), y);
        }
      }
    }
  }
}
