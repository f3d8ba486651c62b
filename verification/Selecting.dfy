/** Lists built by a loop that converts each element or skips it. */
module Selecting {
  import opened Options

  function Chosen<A, B>(s: seq<A>, pick: A -> Option<B>): seq<B> {
    if s == [] then [] else Shown(pick(s[0])) + Chosen(s[1..], pick)
  }

  function Shown<B>(o: Option<B>): seq<B> {
    if o.Some? then [o.value] else []
  }

  lemma {:induction false} ChosenConcat<A, B>(a: seq<A>, b: seq<A>, pick: A -> Option<B>)
    ensures Chosen(a + b, pick) == Chosen(a, pick) + Chosen(b, pick)
  {
    if a == [] {
      assert a + b == b;
    } else {
      assert (a + b)[1..] == a[1..] + b;
      ChosenConcat(a[1..], b, pick);
    }
  }

  lemma ChosenOne<A, B>(x: A, pick: A -> Option<B>)
    ensures Chosen([x], pick) == if pick(x).Some? then [pick(x).value] else []
  {
    assert Chosen([x], pick) == Shown(pick(x)) + Chosen([], pick);
  }

  lemma ChosenNext<A, B>(s: seq<A>, k: nat, pick: A -> Option<B>)
    requires k < |s|
    ensures Chosen(s[..k + 1], pick) == Chosen(s[..k], pick) + Shown(pick(s[k]))
  {
    assert s[..k + 1] == s[..k] + [s[k]];
    ChosenConcat(s[..k], [s[k]], pick);
  }

  lemma {:induction false} ChosenMembers<A, B>(s: seq<A>, pick: A -> Option<B>)
    ensures forall b | b in Chosen(s, pick) :: exists a :: a in s && pick(a) == Some(b)
    ensures forall a | a in s && pick(a).Some? :: pick(a).value in Chosen(s, pick)
  {
    if s == [] {
    } else {
      ChosenMembers(s[1..], pick);
      forall b | b in Chosen(s, pick) ensures exists a :: a in s && pick(a) == Some(b) {
        if b in Chosen(s[1..], pick) {
          var a :| a in s[1..] && pick(a) == Some(b);
          assert a in s;
        } else {
          assert s[0] in s;
        }
      }
    }
  }

  /** The choice of a permutation is a permutation of the choice. */
  lemma {:induction false} ChosenPermutes<A, B>(a: seq<A>, b: seq<A>, pick: A -> Option<B>)
    requires multiset(a) == multiset(b)
    ensures multiset(Chosen(a, pick)) == multiset(Chosen(b, pick))
  {
    if a == [] {
      assert |multiset(b)| == 0;
    } else {
      var x, rest := a[0], a[1..];
      assert a == [x] + rest;
      assert x in multiset(b);
      var before, after := Split(b, x);
      ToTheFront(before, [x], after);
      Cancel(multiset{x}, multiset(rest), multiset(before + after));
      ChosenPermutes(rest, before + after, pick);
      ChosenAround(before, x, after, pick);
    }
  }

  lemma Split<A>(b: seq<A>, x: A) returns (before: seq<A>, after: seq<A>)
    requires x in b
    ensures b == before + [x] + after
  {
    var k :| 0 <= k < |b| && b[k] == x;
    before, after := b[..k], b[k + 1..];
  }

  lemma Cancel<A>(x: multiset<A>, a: multiset<A>, b: multiset<A>)
    requires x + a == x + b
    ensures a == b
  {
    assert (x + a) - x == a && (x + b) - x == b;
  }

  lemma ChosenAround<A, B>(before: seq<A>, x: A, after: seq<A>, pick: A -> Option<B>)
    ensures multiset(Chosen(before + [x] + after, pick))
            == multiset(Shown(pick(x))) + multiset(Chosen(before + after, pick))
  {
    ChosenConcat(before, after, pick);
    ChosenConcat(before + [x], after, pick);
    ChosenConcat(before, [x], pick);
    assert Chosen([x], pick) == Shown(pick(x));
    ToTheFront(Chosen(before, pick), Shown(pick(x)), Chosen(after, pick));
  }

  lemma ToTheFront<A>(x: seq<A>, y: seq<A>, z: seq<A>)
    ensures multiset(x + y + z) == multiset(y) + multiset(x + z)
  {
  }

  /** Lists a map in any order; `keys` is that order. */
  method Listed<K, V>(m: map<K, V>) returns (values: seq<V>, ghost keys: seq<K>)
    ensures |keys| == |values| && forall i, j :: 0 <= i < j < |keys| ==> keys[i] != keys[j]
    ensures forall k :: k in keys <==> k in m
    ensures forall j :: 0 <= j < |keys| ==> keys[j] in m && m[keys[j]] == values[j]
  {
    values, keys := [], [];
    var left := m.Keys;
    while left != {}
      invariant left <= m.Keys && |keys| == |values|
      invariant forall k :: k in keys <==> k in m && k !in left
      invariant forall i, j :: 0 <= i < j < |keys| ==> keys[i] != keys[j]
      invariant forall j :: 0 <= j < |keys| ==> keys[j] in m && m[keys[j]] == values[j]
    {
      var k :| k in left;
      left := left - {k};
      values := values + [m[k]];
      keys := keys + [k];
    }
  }
}
