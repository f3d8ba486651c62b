/** The theory of stable sorting shared by interceptor definitions and governance rules:
    a list is sorted by a key made of a stage position, an order and a name. */
module Sorting {

  datatype Key = Key(stage: int, order: int, name: string)

  /** Character-wise lexicographic order, a proper prefix coming first. */
  predicate NameBelow(a: string, b: string) {
    b != "" && (a == "" || a[0] < b[0] || (a[0] == b[0] && NameBelow(a[1..], b[1..])))
  }

  predicate Below(a: Key, b: Key) {
    || a.stage < b.stage
    || (a.stage == b.stage && (a.order < b.order || (a.order == b.order && NameBelow(a.name, b.name))))
  }

  lemma {:induction false} NameOrderIsTotal(a: string, b: string)
    ensures NameBelow(a, b) || a == b || NameBelow(b, a)
    ensures !(NameBelow(a, b) && NameBelow(b, a)) && !NameBelow(a, a)
    decreases |a|
  {
    if a == "" {
    } else {
      NameOrderIsTotal(a[1..], a[1..]);
      if b != "" && a[0] == b[0] {
        NameOrderIsTotal(a[1..], b[1..]);
        assert a == [a[0]] + a[1..] && b == [b[0]] + b[1..];
      }
    }
  }

  lemma {:induction false} NameOrderIsTransitive(a: string, b: string, c: string)
    requires !NameBelow(b, a) && !NameBelow(c, b)
    ensures !NameBelow(c, a)
    decreases |a|
  {
    if a == "" || b == "" || c == "" || !(a[0] == b[0] == c[0]) {
    } else {
      NameOrderIsTransitive(a[1..], b[1..], c[1..]);
    }
  }

  lemma OrderIsTotal(a: Key, b: Key)
    ensures Below(a, b) || a == b || Below(b, a)
    ensures !(Below(a, b) && Below(b, a)) && !Below(a, a)
  {
    NameOrderIsTotal(a.name, b.name);
    NameOrderIsTotal(a.name, a.name);
  }

  lemma OrderIsTransitive(a: Key, b: Key, c: Key)
    requires !Below(b, a) && !Below(c, b)
    ensures !Below(c, a)
  {
    if a.stage == b.stage == c.stage && a.order == b.order == c.order {
      NameOrderIsTransitive(a.name, b.name, c.name);
    }
  }

  // ---------- Lists ----------

  function Filter<T>(s: seq<T>, p: T -> bool): (r: seq<T>)
    ensures forall x | x in r :: x in s && p(x)
    ensures forall x | x in s && p(x) :: x in r
  {
    if s == [] then [] else (if p(s[0]) then [s[0]] else []) + Filter(s[1..], p)
  }

  function WithKey<T>(s: seq<T>, key: T -> Key, k: Key): (r: seq<T>)
    ensures forall x | x in r :: x in s && key(x) == k
    ensures forall x | x in s && key(x) == k :: x in r
  {
    if s == [] then [] else (if key(s[0]) == k then [s[0]] else []) + WithKey(s[1..], key, k)
  }

  ghost predicate Sorted<T>(s: seq<T>, key: T -> Key) {
    forall i, j :: 0 <= i < j < |s| ==> !Below(key(s[j]), key(s[i]))
  }

  /** `r` is sorted and, key by key, lists the elements of `s` in the order they have in `s`. */
  ghost predicate IsStableSort<T>(s: seq<T>, r: seq<T>, key: T -> Key) {
    Sorted(r, key) && forall k :: WithKey(r, key, k) == WithKey(s, key, k)
  }

  lemma FilterNext<T>(s: seq<T>, k: nat, p: T -> bool)
    requires k < |s|
    ensures Filter(s[..k + 1], p) == Filter(s[..k], p) + if p(s[k]) then [s[k]] else []
  {
    assert s[..k + 1] == s[..k] + [s[k]];
    FilterConcat(s[..k], [s[k]], p);
  }

  lemma {:induction false} FilterConcat<T>(a: seq<T>, b: seq<T>, p: T -> bool)
    ensures Filter(a + b, p) == Filter(a, p) + Filter(b, p)
  {
    if a == [] {
      assert a + b == b;
    } else {
      assert (a + b)[1..] == a[1..] + b;
      FilterConcat(a[1..], b, p);
    }
  }

  lemma {:induction false} WithKeyConcat<T>(a: seq<T>, b: seq<T>, key: T -> Key, k: Key)
    ensures WithKey(a + b, key, k) == WithKey(a, key, k) + WithKey(b, key, k)
  {
    if a == [] {
      assert a + b == b;
    } else {
      assert (a + b)[1..] == a[1..] + b;
      WithKeyConcat(a[1..], b, key, k);
    }
  }

  lemma {:induction false} NoneWithKey<T>(s: seq<T>, key: T -> Key, k: Key)
    requires forall x | x in s :: key(x) != k
    ensures WithKey(s, key, k) == []
  {
    if s == [] {
    } else {
      NoneWithKey(s[1..], key, k);
    }
  }

  /** Sorted pieces concatenate when no element of the second is below one of the first. */
  lemma SortedConcat<T>(a: seq<T>, b: seq<T>, key: T -> Key)
    requires Sorted(a, key) && Sorted(b, key)
    requires forall x, y | x in a && y in b :: !Below(key(y), key(x))
    ensures Sorted(a + b, key)
  {
    forall i, j | 0 <= i < j < |a + b| ensures !Below(key((a + b)[j]), key((a + b)[i])) {
      if i < |a| <= j {
        assert a[i] in a && b[j - |a|] in b;
      }
    }
  }

  lemma {:induction false} FilterOfWithKey<T>(s: seq<T>, p: T -> bool, key: T -> Key, k: Key)
    ensures WithKey(Filter(s, p), key, k) == Filter(WithKey(s, key, k), p)
  {
    if s == [] {
    } else {
      FilterOfWithKey(s[1..], p, key, k);
      WithKeyConcat(if p(s[0]) then [s[0]] else [], Filter(s[1..], p), key, k);
      FilterConcat(if key(s[0]) == k then [s[0]] else [], WithKey(s[1..], key, k), p);
    }
  }

  lemma {:induction false} FilterKeepsSorted<T>(s: seq<T>, p: T -> bool, key: T -> Key)
    requires Sorted(s, key)
    ensures Sorted(Filter(s, p), key)
  {
    if s == [] {
    } else {
      FilterKeepsSorted(s[1..], p, key);
      forall x | x in Filter(s[1..], p) ensures !Below(key(x), key(s[0])) {
        var j :| 0 <= j < |s[1..]| && s[1..][j] == x;
        assert s[j + 1] == x;
      }
    }
  }

  // ---------- The sort ----------

  /** Puts `x` in front of the first element that is not below it. */
  function Insert<T>(x: T, s: seq<T>, key: T -> Key): seq<T> {
    if s == [] || !Below(key(s[0]), key(x)) then [x] + s else [s[0]] + Insert(x, s[1..], key)
  }

  /** The one stable sort of a list. */
  function StableSort<T>(s: seq<T>, key: T -> Key): seq<T> {
    if s == [] then [] else Insert(s[0], StableSort(s[1..], key), key)
  }

  lemma HeadIsLeast<T>(s: seq<T>, key: T -> Key, x: T)
    requires Sorted(s, key) && x in s
    ensures !Below(key(x), key(s[0]))
  {
    var j :| 0 <= j < |s| && s[j] == x;
    OrderIsTotal(key(x), key(x));
  }

  lemma {:induction false} InsertIsPermutation<T>(x: T, s: seq<T>, key: T -> Key)
    ensures multiset(Insert(x, s, key)) == multiset([x] + s)
  {
    if s == [] || !Below(key(s[0]), key(x)) {
    } else {
      InsertIsPermutation(x, s[1..], key);
      assert s == [s[0]] + s[1..];
    }
  }

  lemma {:induction false} InsertWithKey<T>(x: T, s: seq<T>, key: T -> Key, k: Key)
    ensures WithKey(Insert(x, s, key), key, k) == WithKey([x] + s, key, k)
  {
    if s == [] || !Below(key(s[0]), key(x)) {
    } else {
      var y, rest := s[0], s[1..];
      assert s == [y] + rest;
      InsertWithKey(x, rest, key, k);
      OrderIsTotal(key(y), key(x));
      WithKeyConcat([y], Insert(x, rest, key), key, k);
      DifferentKeysSwap(x, y, rest, key, k);
    }
  }

  lemma DifferentKeysSwap<T>(x: T, y: T, rest: seq<T>, key: T -> Key, k: Key)
    requires key(x) != key(y)
    ensures WithKey([y], key, k) + WithKey([x] + rest, key, k) == WithKey([x] + ([y] + rest), key, k)
  {
    WithKeyConcat([x], rest, key, k);
    WithKeyConcat([x], [y] + rest, key, k);
    WithKeyConcat([y], rest, key, k);
    OneWithKey(x, key, k);
    OneWithKey(y, key, k);
    SwapEmpty(WithKey([x], key, k), WithKey([y], key, k), WithKey(rest, key, k));
  }

  lemma OneWithKey<T>(x: T, key: T -> Key, k: Key)
    ensures WithKey([x], key, k) == if key(x) == k then [x] else []
  {
  }

  lemma SwapEmpty<T>(a: seq<T>, b: seq<T>, c: seq<T>)
    requires a == [] || b == []
    ensures b + (a + c) == a + (b + c)
  {
  }

  lemma {:induction false} InsertKeepsSorted<T>(x: T, s: seq<T>, key: T -> Key)
    requires Sorted(s, key)
    ensures Sorted(Insert(x, s, key), key)
  {
    if s == [] {
    } else if !Below(key(s[0]), key(x)) {
      forall j | 0 <= j < |s| ensures !Below(key(s[j]), key(x)) {
        if j > 0 { OrderIsTransitive(key(x), key(s[0]), key(s[j])); }
      }
    } else {
      var r := Insert(x, s[1..], key);
      InsertKeepsSorted(x, s[1..], key);
      InsertIsPermutation(x, s[1..], key);
      OrderIsTotal(key(s[0]), key(x));
      forall y | y in r ensures !Below(key(y), key(s[0])) {
        assert y in multiset(r);
        if y != x {
          HeadIsLeast(s, key, y);
        }
      }
    }
  }

  /** The sort is a stable sort and a permutation. */
  lemma {:induction false} StableSortIsStable<T>(s: seq<T>, key: T -> Key)
    ensures IsStableSort(s, StableSort(s, key), key)
    ensures multiset(StableSort(s, key)) == multiset(s)
  {
    if s == [] {
    } else {
      StableSortIsStable(s[1..], key);
      var r := StableSort(s[1..], key);
      InsertKeepsSorted(s[0], r, key);
      InsertIsPermutation(s[0], r, key);
      assert s == [s[0]] + s[1..];
      forall k ensures WithKey(StableSort(s, key), key, k) == WithKey(s, key, k) {
        InsertWithKey(s[0], r, key, k);
        assert ([s[0]] + r)[1..] == r;
      }
    }
  }

  lemma HeadHasItsKey<T>(s: seq<T>, key: T -> Key)
    requires s != []
    ensures WithKey(s, key, key(s[0])) != []
  {
  }

  lemma SameHead<T>(a: seq<T>, b: seq<T>, key: T -> Key)
    requires Sorted(a, key) && Sorted(b, key) && a != [] && b != []
    requires forall k :: WithKey(a, key, k) == WithKey(b, key, k)
    ensures a[0] == b[0]
  {
    var j, k := key(a[0]), key(b[0]);
    assert a[0] in WithKey(a, key, j) && b[0] in WithKey(b, key, k);
    HeadIsLeast(b, key, a[0]);
    HeadIsLeast(a, key, b[0]);
    OrderIsTotal(j, k);
    assert WithKey(a, key, j)[0] == a[0] && WithKey(b, key, k)[0] == b[0];
  }

  /** Two sorted lists that agree key by key are equal, so a stable sort is unique. */
  lemma {:induction false} StableSortIsUnique<T>(a: seq<T>, b: seq<T>, key: T -> Key)
    requires Sorted(a, key) && Sorted(b, key)
    requires forall k :: WithKey(a, key, k) == WithKey(b, key, k)
    ensures a == b
  {
    if a == [] {
    } else {
      HeadHasItsKey(a, key);
    }
    if b != [] { HeadHasItsKey(b, key); }
    if a != [] && b != [] {
      SameHead(a, b, key);
      forall k ensures WithKey(a[1..], key, k) == WithKey(b[1..], key, k) {
        var head := if key(a[0]) == k then [a[0]] else [];
        assert WithKey(a, key, k) == head + WithKey(a[1..], key, k);
        assert WithKey(b, key, k) == head + WithKey(b[1..], key, k);
        assert WithKey(a[1..], key, k) == WithKey(a, key, k)[|head|..];
      }
      StableSortIsUnique(a[1..], b[1..], key);
    }
  }

  /** A stable sort is recognised by its specification. */
  lemma StableSortIsTheOnlyOne<T>(s: seq<T>, r: seq<T>, key: T -> Key)
    requires IsStableSort(s, r, key)
    ensures r == StableSort(s, key)
  {
    StableSortIsStable(s, key);
    StableSortIsUnique(r, StableSort(s, key), key);
  }

  /** Filtering then sorting is sorting then filtering. */
  lemma SortCommutesWithFilter<T>(s: seq<T>, p: T -> bool, key: T -> Key)
    ensures Filter(StableSort(s, key), p) == StableSort(Filter(s, p), key)
  {
    StableSortIsStable(s, key);
    var r := Filter(StableSort(s, key), p);
    FilterKeepsSorted(StableSort(s, key), p, key);
    forall k ensures WithKey(r, key, k) == WithKey(Filter(s, p), key, k) {
      FilterOfWithKey(StableSort(s, key), p, key, k);
      FilterOfWithKey(s, p, key, k);
    }
    StableSortIsTheOnlyOne(Filter(s, p), r, key);
  }

  /** Sorting a sorted list changes nothing. */
  lemma SortOfSorted<T>(s: seq<T>, key: T -> Key)
    requires Sorted(s, key)
    ensures StableSort(s, key) == s
  {
    StableSortIsTheOnlyOne(s, s, key);
  }

  // ---------- What the order means ----------

  /** A name comes before another if at the first difference it ends or has the smaller character. */
  lemma {:induction false} NameBelowMeans(a: string, b: string)
    ensures NameBelow(a, b) <==>
              exists k :: 0 <= k <= |a| && k < |b| && a[..k] == b[..k] && (k == |a| || a[k] < b[k])
  {
    if b == "" {
    } else if a == "" || a[0] != b[0] {
      assert a[..0] == b[..0];
      forall k | 0 < k <= |a| && k < |b| ensures a[..k] != b[..k] {
        assert a[..k][0] == a[0] && b[..k][0] == b[0];
      }
    } else {
      NameBelowMeans(a[1..], b[1..]);
      if k :| 0 <= k <= |a| && k < |b| && a[..k] == b[..k] && (k == |a| || a[k] < b[k]) {
        assert a[1..][..k - 1] == a[..k][1..] && b[1..][..k - 1] == b[..k][1..];
      }
      var s, t := a[1..], b[1..];
      if k :| 0 <= k <= |s| && k < |t| && s[..k] == t[..k] && (k == |s| || s[k] < t[k]) {
        assert a[..k + 1] == [a[0]] + s[..k] && b[..k + 1] == [b[0]] + t[..k];
      }
    }
  }

  /** In a sorted list smaller stages come first, within a stage smaller orders, within an order smaller names, and
      equal ones keep their order. */
  lemma StableSortMeans<T>(s: seq<T>, key: T -> Key, i: nat, j: nat)
    requires i < j < |StableSort(s, key)|
    ensures var a, b := key(StableSort(s, key)[i]), key(StableSort(s, key)[j]);
            && a.stage <= b.stage
            && (a.stage == b.stage ==> a.order <= b.order)
            && (a.stage == b.stage && a.order == b.order ==> a.name == b.name || NameBelow(a.name, b.name))
    ensures forall k :: WithKey(StableSort(s, key), key, k) == WithKey(s, key, k)
  {
    StableSortIsStable(s, key);
    var a, b := key(StableSort(s, key)[i]), key(StableSort(s, key)[j]);
    assert !Below(b, a);
    NameOrderIsTotal(a.name, b.name);
  }
}
