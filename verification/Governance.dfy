/** The governance rule store: a sorted snapshot whose rules never share a map with the outside.
    The metadata and spec maps of a rule are references, so memory is explicit here. */
module Governance {
  import opened Options
  import opened Sorting
  import opened Text

  /** What a map holds: a text, or a reference to another map inside a rule's spec. */
  datatype Value = Plain(text: string) | Nested(at: nat)

  /** Memory is the list of maps allocated so far; a reference is an index into it. */
  type Memory = seq<map<string, Value>>
  type Ref = Option<nat>

  datatype Rule = Rule(id: string, kind: string, enabled: bool, scope: string, priority: int, version: string,
                       metadata: Ref, spec: Ref)
  {
    /** Both references point to maps allocated in `m`, at `from` or later. */
    predicate Within(from: nat, m: Memory) {
      && (metadata.Some? ==> from <= metadata.value < |m|)
      && (spec.Some? ==> from <= spec.value < |m|)
    }
  }

  datatype Contents = Contents(plain: Rule, metadata: Option<map<string, Value>>, spec: Option<map<string, Value>>)

  function Deref(m: Memory, r: Ref): Option<map<string, Value>>
    requires r.Some? ==> r.value < |m|
  {
    if r.None? then None else Some(m[r.value])
  }

  /** What a holder of the rule reads in it and in its two maps. */
  function Read(m: Memory, rule: Rule): Contents
    requires rule.Within(0, m)
  {
    Contents(rule.(metadata := None, spec := None), Deref(m, rule.metadata), Deref(m, rule.spec))
  }

  function TrimId(c: Contents): Contents {
    c.(plain := c.plain.(id := Trim(c.plain.id)))
  }

  predicate AllWithin(rules: seq<Rule>, from: nat, m: Memory) {
    forall i :: 0 <= i < |rules| ==> rules[i].Within(from, m)
  }

  function ByPriority(): Rule -> Key {
    (r: Rule) => Key(0, r.priority, r.id)
  }

  // ---------- Cloning ----------

  method CloneMap(m: Memory, r: Ref) returns (m': Memory, copy: Ref)
    requires r.Some? ==> r.value < |m|
    ensures m <= m' && (copy.Some? ==> |m| <= copy.value < |m'|)
    ensures Deref(m', copy) == Deref(m, r)
  {
    if r.None? {
      return m, None;
    }
    return m + [m[r.value]], Some(|m|);
  }

  /** The ID is trimmed, all else is as it was, and the two maps are new ones with the same entries. */
  method CloneRule(m: Memory, rule: Rule) returns (m': Memory, copy: Rule)
    requires rule.Within(0, m)
    ensures m <= m' && copy.Within(|m|, m') && Read(m', copy) == TrimId(Read(m, rule))
    ensures copy == rule.(id := Trim(rule.id), metadata := copy.metadata, spec := copy.spec)
    ensures if rule.metadata.None? then copy.metadata.None?
            else copy.metadata.Some? && m'[copy.metadata.value] == m[rule.metadata.value]
    ensures if rule.spec.None? then copy.spec.None? else copy.spec.Some? && m'[copy.spec.value] == m[rule.spec.value]
  {
    var metadata, spec;
    m', metadata := CloneMap(m, rule.metadata);
    m', spec := CloneMap(m', rule.spec);
    copy := rule.(id := Trim(rule.id), metadata := metadata, spec := spec);
  }

  /** Allocation leaves what is allocated alone. */
  lemma ReadKept(m: Memory, m': Memory, rule: Rule)
    requires m <= m' && rule.Within(0, m)
    ensures rule.Within(0, m') && Read(m', rule) == Read(m, rule)
  {
  }

  /** `copies`, in `m'`, read like `rules`, in `m`, but for their IDs, which are trimmed. */
  ghost predicate Copied(m: Memory, rules: seq<Rule>, m': Memory, copies: seq<Rule>) {
    && m <= m' && |copies| <= |rules|
    && AllWithin(rules, 0, m) && AllWithin(copies, |m|, m')
    && forall i :: 0 <= i < |copies| ==> Read(m', copies[i]) == TrimId(Read(m, rules[i]))
  }

  /** What a deep copy is, rule by rule. */
  lemma CopiedMeans(m: Memory, rules: seq<Rule>, m': Memory, copies: seq<Rule>, i: nat)
    requires Copied(m, rules, m', copies) && i < |copies|
    ensures var rule, copy := rules[i], copies[i];
            && copy == rule.(id := Trim(rule.id), metadata := copy.metadata, spec := copy.spec)
            && (copy.metadata.Some? <==> rule.metadata.Some?) && (copy.spec.Some? <==> rule.spec.Some?)
            && (copy.metadata.Some? ==>
                  |m| <= copy.metadata.value < |m'| && m'[copy.metadata.value] == m[rule.metadata.value])
            && (copy.spec.Some? ==> |m| <= copy.spec.value < |m'| && m'[copy.spec.value] == m[rule.spec.value])
  {
    var rule, copy := rules[i], copies[i];
    assert Read(m', copy) == TrimId(Read(m, rule));
    assert copy.(metadata := None, spec := None) == rule.(id := Trim(rule.id), metadata := None, spec := None);
  }

  lemma StaysCopied(m: Memory, m1: Memory, m2: Memory, copy: Rule)
    requires m <= m1 <= m2 && copy.Within(|m|, m1)
    ensures copy.Within(|m|, m2) && copy.Within(0, m1) && Read(m2, copy) == Read(m1, copy)
  {
    ReadKept(m1, m2, copy);
  }

  lemma CopiedOneMore(m: Memory, rules: seq<Rule>, m1: Memory, copies: seq<Rule>, m2: Memory, copy: Rule)
    requires Copied(m, rules, m1, copies) && |copies| < |rules| && m1 <= m2
    requires rules[|copies|].Within(0, m1) && copy.Within(|m1|, m2)
    requires Read(m2, copy) == TrimId(Read(m1, rules[|copies|]))
    ensures Copied(m, rules, m2, copies + [copy])
  {
    var n, more := |copies|, copies + [copy];
    ReadKept(m, m1, rules[n]);
    AllStayCopied(m, rules, m1, copies, m2);
    forall i | 0 <= i <= n ensures more[i].Within(|m|, m2) && Read(m2, more[i]) == TrimId(Read(m, rules[i])) {
      if i < n {
        assert more[i] == copies[i];
      }
    }
  }

  lemma AllStayCopied(m: Memory, rules: seq<Rule>, m1: Memory, copies: seq<Rule>, m2: Memory)
    requires Copied(m, rules, m1, copies) && m1 <= m2
    ensures Copied(m, rules, m2, copies)
  {
    forall i | 0 <= i < |copies| ensures copies[i].Within(|m|, m2) && Read(m2, copies[i]) == TrimId(Read(m, rules[i])) {
      StaysCopied(m, m1, m2, copies[i]);
    }
  }

  /** A deep copy, element by element, into memory allocated for it. */
  method CloneRules(m: Memory, rules: seq<Rule>) returns (m': Memory, copies: seq<Rule>)
    requires AllWithin(rules, 0, m)
    ensures |copies| == |rules| && Copied(m, rules, m', copies)
  {
    m', copies := m, [];
    for k := 0 to |rules|
      invariant |copies| == k && Copied(m, rules, m', copies)
    {
      ReadKept(m, m', rules[k]);
      var m2, copy := CloneRule(m', rules[k]);
      CopiedOneMore(m, rules, m', copies, m2, copy);
      m', copies := m2, copies + [copy];
    }
  }

  // ---------- The store ----------

  datatype Snapshot = Snapshot(version: string, updatedAt: int, rules: seq<Rule>)

  function Wanted(kind: string, accept: Rule -> bool): Rule -> bool {
    (r: Rule) => (kind == "" || r.kind == kind) && accept(r)
  }

  class Store {
    var value: Snapshot

    ghost predicate Valid(m: Memory)
      reads this
    {
      && AllWithin(value.rules, 0, m)
      && Sorted(value.rules, ByPriority())
      && forall i :: 0 <= i < |value.rules| ==> Trim(value.rules[i].id) == value.rules[i].id
    }

    /** Installs the stable sort of a deep copy of the rules given; `copies` are in the order given. */
    method Replace(m: Memory, snapshot: Snapshot, now: int) returns (m': Memory, ghost copies: seq<Rule>)
      requires AllWithin(snapshot.rules, 0, m)
      modifies this
      ensures Valid(m') && |copies| == |snapshot.rules| && Copied(m, snapshot.rules, m', copies)
      ensures IsStableSort(copies, value.rules, ByPriority()) && multiset(value.rules) == multiset(copies)
      ensures forall i, j :: 0 <= i < j < |value.rules| ==>
                               var a, b := value.rules[i], value.rules[j];
                               a.priority < b.priority || (a.priority == b.priority && !NameBelow(b.id, a.id))
      ensures value.version == snapshot.version
      ensures value.updatedAt == if snapshot.updatedAt == 0 then now else snapshot.updatedAt
    {
      var rules;
      m', rules := CloneRules(m, snapshot.rules);
      copies := rules;
      var sorted := StableSort(rules, ByPriority());
      StableSortIsStable(rules, ByPriority());
      SortedCopies(m, snapshot.rules, m', copies, sorted);
      SortedByPriority(sorted);
      value := Snapshot(snapshot.version, if snapshot.updatedAt == 0 then now else snapshot.updatedAt, sorted);
    }

    /** A deep copy of the stored snapshot. */
    method GetSnapshot(m: Memory) returns (m': Memory, snapshot: Snapshot)
      requires Valid(m)
      ensures snapshot == value.(rules := snapshot.rules) && |snapshot.rules| == |value.rules|
      ensures Copied(m, value.rules, m', snapshot.rules)
      ensures Sorted(snapshot.rules, ByPriority())
      ensures forall i, j :: 0 <= i < j < |snapshot.rules| ==>
                               var a, b := snapshot.rules[i], snapshot.rules[j];
                               a.priority < b.priority || (a.priority == b.priority && !NameBelow(b.id, a.id))
    {
      var rules;
      m', rules := CloneRules(m, value.rules);
      snapshot := value.(rules := rules);
      SameContentsSorted(m, value.rules, m', rules);
      SortedByPriority(rules);
    }

    /** The copies of the wanted rules, in the order of the store. */
    method Rules(m: Memory, kind: string, accept: Rule -> bool)
      returns (m': Memory, rules: seq<Rule>, ghost copies: seq<Rule>)
      requires Valid(m)
      ensures |copies| == |value.rules| && Copied(m, value.rules, m', copies)
      ensures rules == Filter(copies, Wanted(kind, accept)) && Sorted(rules, ByPriority())
      ensures forall r :: r in rules <==> r in copies && (kind == "" || r.kind == kind) && accept(r)
      ensures forall i, j :: 0 <= i < j < |rules| ==>
                               var a, b := rules[i], rules[j];
                               a.priority < b.priority || (a.priority == b.priority && !NameBelow(b.id, a.id))
    {
      var snapshot;
      m', snapshot := GetSnapshot(m);
      copies := snapshot.rules;
      rules := Select(snapshot.rules, kind, accept);
      FilterKeepsSorted(copies, Wanted(kind, accept), ByPriority());
      SortedByPriority(rules);
    }
  }

  /** Smaller priorities come first, and within a priority smaller IDs. */
  lemma SortedByPriority(rules: seq<Rule>)
    ensures Sorted(rules, ByPriority()) <==>
              forall i, j :: 0 <= i < j < |rules| ==>
                               var a, b := rules[i], rules[j];
                               a.priority < b.priority || (a.priority == b.priority && !NameBelow(b.id, a.id))
  {
    forall i, j | 0 <= i < j < |rules|
      ensures !Below(ByPriority()(rules[j]), ByPriority()(rules[i]))
              <==> var a, b := rules[i], rules[j];
                   a.priority < b.priority || (a.priority == b.priority && !NameBelow(b.id, a.id))
    {
    }
  }

  method Select(all: seq<Rule>, kind: string, accept: Rule -> bool) returns (rules: seq<Rule>)
    ensures rules == Filter(all, Wanted(kind, accept))
  {
    rules := [];
    for k := 0 to |all|
      invariant rules == Filter(all[..k], Wanted(kind, accept))
    {
      FilterNext(all, k, Wanted(kind, accept));
      if kind != "" && all[k].kind != kind {
        continue;
      }
      if !accept(all[k]) {
        continue;
      }
      rules := rules + [all[k]];
    }
    assert all[..|all|] == all;
  }

  lemma SortedCopies(m: Memory, rules: seq<Rule>, m': Memory, copies: seq<Rule>, sorted: seq<Rule>)
    requires Copied(m, rules, m', copies) && multiset(sorted) == multiset(copies)
    ensures AllWithin(sorted, |m|, m')
    ensures forall i :: 0 <= i < |sorted| ==> Trim(sorted[i].id) == sorted[i].id
  {
    forall i | 0 <= i < |sorted| ensures sorted[i].Within(|m|, m') && Trim(sorted[i].id) == sorted[i].id {
      assert sorted[i] in multiset(copies);
      var j :| 0 <= j < |copies| && copies[j] == sorted[i];
      assert Read(m', copies[j]).plain.id == Trim(rules[j].id);
      TrimIdempotent(rules[j].id);
    }
  }

  lemma SameContentsSorted(m: Memory, rules: seq<Rule>, m': Memory, copies: seq<Rule>)
    requires |copies| == |rules| && Copied(m, rules, m', copies)
    requires forall i :: 0 <= i < |rules| ==> Trim(rules[i].id) == rules[i].id
    requires Sorted(rules, ByPriority())
    ensures Sorted(copies, ByPriority())
    ensures forall i :: 0 <= i < |rules| ==> Read(m', copies[i]) == Read(m, rules[i])
  {
    forall i | 0 <= i < |rules|
      ensures ByPriority()(copies[i]) == ByPriority()(rules[i]) && Read(m', copies[i]) == Read(m, rules[i])
    {
      assert Read(m', copies[i]).plain == TrimId(Read(m, rules[i])).plain;
    }
  }

  // ---------- What the store promises ----------

  /** Replacing with a snapshot the store returned leaves what can be read from the store as it was. */
  method ReplaceWithOwnSnapshot(store: Store, m: Memory, now: int) returns (m': Memory)
    requires store.Valid(m) && store.value.updatedAt != 0
    modifies store
    ensures store.Valid(m') && store.value == old(store.value).(rules := store.value.rules)
    ensures SameReading(m, old(store.value.rules), m', store.value.rules)
  {
    var snapshot;
    ghost var copies;
    ghost var rules := store.value.rules;
    m', snapshot := store.GetSnapshot(m);
    SameContentsSorted(m, rules, m', snapshot.rules);
    ghost var m1 := m';
    assert SameReading(m, rules, m1, snapshot.rules);
    m', copies := store.Replace(m', snapshot, now);
    OwnIdsAreTrimmed(m, rules, m1, snapshot.rules);
    SameContentsSorted(m1, snapshot.rules, m', copies);
    assert SameReading(m1, snapshot.rules, m', copies);
    StableSortIsTheOnlyOne(copies, store.value.rules, ByPriority());
    SortOfSorted(copies, ByPriority());
  }

  ghost predicate SameReading(m: Memory, a: seq<Rule>, m': Memory, b: seq<Rule>) {
    && |a| == |b| && AllWithin(a, 0, m) && AllWithin(b, 0, m')
    && forall i :: 0 <= i < |a| ==> Read(m, a[i]) == Read(m', b[i])
  }

  lemma OwnIdsAreTrimmed(m: Memory, rules: seq<Rule>, m': Memory, copies: seq<Rule>)
    requires Copied(m, rules, m', copies)
    ensures forall i :: 0 <= i < |copies| ==> Trim(copies[i].id) == copies[i].id
  {
    SortedCopies(m, rules, m', copies, copies);
  }

  // ---------- What edits reach ----------

  /** No map refers to one that is not there. */
  predicate Closed(m: Memory) {
    forall a, k | 0 <= a < |m| && k in m[a] :: m[a][k].Nested? ==> m[a][k].at < |m|
  }

  /** What is found under a path of keys from a map on. */
  function Follow(m: Memory, a: nat, path: seq<string>): Option<Value>
    requires path != []
    decreases |path|
  {
    if a >= |m| || path[0] !in m[a] then None
    else if |path| == 1 then Some(m[a][path[0]])
    else if m[a][path[0]].Nested? then Follow(m, m[a][path[0]].at, path[1..])
    else None
  }

  lemma {:induction false} FollowUnchanged(m: Memory, edited: Memory, a: nat, path: seq<string>)
    requires path != [] && a < |m| && Closed(m)
    requires |m| <= |edited| && forall b :: 0 <= b < |m| ==> edited[b] == m[b]
    ensures Follow(edited, a, path) == Follow(m, a, path)
    decreases |path|
  {
    if |path| == 1 || path[0] !in m[a] || !m[a][path[0]].Nested? {
    } else {
      FollowUnchanged(m, edited, m[a][path[0]].at, path[1..]);
    }
  }

  ghost predicate SameDeepReading(m: Memory, m': Memory, rules: seq<Rule>) {
    forall i, path | 0 <= i < |rules| && path != [] ::
      && (rules[i].metadata.Some?
         ==> Follow(m, rules[i].metadata.value, path) == Follow(m', rules[i].metadata.value, path))
      && (rules[i].spec.Some? ==> Follow(m, rules[i].spec.value, path) == Follow(m', rules[i].spec.value, path))
  }

  /** Whatever is written to the metadata and spec maps of returned rules, the store reads as before, at any depth. */
  lemma EditsNeverReachTheStore(m: Memory, stored: seq<Rule>, m': Memory, returned: seq<Rule>, edited: Memory)
    requires AllWithin(stored, 0, m) && Closed(m) && m <= m' && AllWithin(returned, |m|, m') && |edited| == |m'|
    requires forall a :: 0 <= a < |m'| && m'[a] != edited[a] ==>
               exists i :: 0 <= i < |returned| && (returned[i].metadata == Some(a) || returned[i].spec == Some(a))
    ensures SameReading(m, stored, edited, stored) && SameDeepReading(m, edited, stored)
  {
    assert forall a :: 0 <= a < |m| ==> m[a] == m'[a] == edited[a];
    forall i, path | 0 <= i < |stored| && path != []
      ensures stored[i].metadata.Some? ==>
                Follow(m, stored[i].metadata.value, path) == Follow(edited, stored[i].metadata.value, path)
      ensures stored[i].spec.Some?
              ==> Follow(m, stored[i].spec.value, path) == Follow(edited, stored[i].spec.value, path)
    {
      if stored[i].metadata.Some? { FollowUnchanged(m, edited, stored[i].metadata.value, path); }
      if stored[i].spec.Some? { FollowUnchanged(m, edited, stored[i].spec.value, path); }
    }
  }

  /** A rule's two maps. */
  predicate Holds(rule: Rule, a: nat) {
    rule.metadata == Some(a) || rule.spec == Some(a)
  }

  /** `a` is one of the rule's maps, or found from one under a path of keys. */
  ghost predicate ReachedFrom(m: Memory, rule: Rule, a: nat) {
    Holds(rule, a) || exists c, path :: Holds(rule, c) && path != [] && Follow(m, c, path) == Some(Nested(a))
  }

  ghost predicate Reachable(m: Memory, rules: seq<Rule>, a: nat) {
    exists i :: 0 <= i < |rules| && ReachedFrom(m, rules[i], a)
  }

  /** `edited` differs from `m` only in maps that the holder of `rules` reaches. */
  ghost predicate EditedThrough(m: Memory, rules: seq<Rule>, edited: Memory) {
    |edited| == |m| && forall a :: 0 <= a < |m| && m[a] != edited[a] ==> Reachable(m, rules, a)
  }

  /** Nothing that the holder of `returned` can write is read through `stored`. */
  ghost predicate Isolated(m: Memory, stored: seq<Rule>, returned: seq<Rule>) {
    forall edited | EditedThrough(m, returned, edited) :: SameDeepReading(m, edited, stored)
  }

  /** No map of the rules holds a nested one. */
  predicate AllFlat(m: Memory, rules: seq<Rule>)
    requires AllWithin(rules, 0, m)
  {
    forall i | 0 <= i < |rules| :: Flat(Deref(m, rules[i].metadata)) && Flat(Deref(m, rules[i].spec))
  }

  predicate Flat(entries: Option<map<string, Value>>) {
    entries.Some? ==> forall k | k in entries.value :: entries.value[k].Plain?
  }

  lemma AllFlatMeans(m: Memory, rules: seq<Rule>)
    requires AllWithin(rules, 0, m)
    ensures AllFlat(m, rules) <==>
              forall i, a, k |
                && 0 <= i < |rules| && (rules[i].metadata == Some(a) || rules[i].spec == Some(a)) && k in m[a] ::
                m[a][k].Plain?
  {
  }

  /** A copy has the entries of what it was made of. */
  lemma CopiesHaveTheEntries(m: Memory, stored: seq<Rule>, m': Memory, returned: seq<Rule>, i: nat)
    requires Copied(m, stored, m', returned) && i < |returned|
    ensures Deref(m', returned[i].metadata) == Deref(m, stored[i].metadata)
    ensures Deref(m', returned[i].spec) == Deref(m, stored[i].spec)
  {
    assert Read(m', returned[i]) == TrimId(Read(m, stored[i]));
  }

  lemma FlatEndsThere(m: Memory, c: nat, path: seq<string>, a: nat)
    requires c < |m| && Flat(Some(m[c])) && path != []
    ensures Follow(m, c, path) != Some(Nested(a))
  {
  }

  /** From a flat rule nothing is reached but its own maps. */
  lemma FlatRuleReachesItsOwn(m: Memory, rule: Rule, a: nat)
    requires rule.Within(0, m) && Flat(Deref(m, rule.metadata)) && Flat(Deref(m, rule.spec))
    requires ReachedFrom(m, rule, a)
    ensures Holds(rule, a)
  {
    forall c, path | Holds(rule, c) && path != [] ensures Follow(m, c, path) != Some(Nested(a)) {
      FlatEndsThere(m, c, path, a);
    }
  }

  lemma FlatCopiesReachTheirOwn(m: Memory, stored: seq<Rule>, m': Memory, returned: seq<Rule>, a: nat)
    requires Copied(m, stored, m', returned) && AllFlat(m, stored) && Reachable(m', returned, a)
    ensures exists i :: 0 <= i < |returned| && Holds(returned[i], a)
  {
    var i :| 0 <= i < |returned| && ReachedFrom(m', returned[i], a);
    CopiesHaveTheEntries(m, stored, m', returned, i);
    FlatRuleReachesItsOwn(m', returned[i], a);
  }

  lemma FlatRulesAreIsolated(m: Memory, stored: seq<Rule>, m': Memory, returned: seq<Rule>)
    requires Closed(m) && Copied(m, stored, m', returned) && AllFlat(m, stored)
    ensures Isolated(m', stored, returned)
  {
    forall edited | EditedThrough(m', returned, edited) ensures SameDeepReading(m', edited, stored) {
      forall a | 0 <= a < |m'| && m'[a] != edited[a]
        ensures exists i :: 0 <= i < |returned| && (returned[i].metadata == Some(a) || returned[i].spec == Some(a))
      {
        FlatCopiesReachTheirOwn(m, stored, m', returned, a);
        var i :| 0 <= i < |returned| && Holds(returned[i], a);
      }
      EditsNeverReachTheStore(m, stored, m', returned, edited);
      EditsNeverReachTheStore(m, stored, m', returned, m');
      DeepReadingIsTransitive(m', m, edited, stored);
    }
  }

  lemma DeepReadingIsTransitive(a: Memory, m: Memory, b: Memory, rules: seq<Rule>)
    requires SameDeepReading(m, a, rules) && SameDeepReading(m, b, rules)
    ensures SameDeepReading(a, b, rules)
  {
  }

  /** A key next to `k`, and a value that is not found under it. */
  function OtherValue(entries: map<string, Value>, j: string): Value {
    if j in entries && entries[j] == Plain("") then Plain("x") else Plain("")
  }

  /** A map nested under `k` of `a` is not copied: `c`, the copy of `a`, has it too, and what is written to it is read
      through `a`. */
  lemma NestedEditIsRead(m: Memory, a: nat, c: nat, k: string) returns (edited: Memory, b: nat, path: seq<string>)
    requires a < |m| && c < |m| && m[a] == m[c] && k in m[c] && m[c][k].Nested? && m[c][k].at < |m|
    ensures b == m[c][k].at && path != [] && |edited| == |m| && forall d :: 0 <= d < |m| && d != b ==> edited[d] == m[d]
    ensures Follow(m, c, [k]) == Some(Nested(b)) && Follow(edited, a, path) != Follow(m, a, path)
  {
    b := m[c][k].at;
    var j := k + "x";
    path := [k, j];
    edited := m[b := m[b][j := OtherValue(m[b], j)]];
    assert j != k by {
      assert |j| == |k| + 1;
    }
    assert path[1..] == [j] && edited[a][k] == m[a][k];
    assert Follow(edited, b, [j]) == Some(OtherValue(m[b], j));
    assert Follow(m, b, [j]) != Some(OtherValue(m[b], j));
  }

  /** Some rule that is not flat: `a` is its map with a nested one under `k`, `c` the copy of it. */
  lemma PickNested(m: Memory, stored: seq<Rule>, m': Memory, returned: seq<Rule>)
    returns (i: nat, a: nat, c: nat, k: string)
    requires Copied(m, stored, m', returned) && |returned| == |stored| && !AllFlat(m, stored)
    ensures i < |stored| && Holds(stored[i], a) && Holds(returned[i], c) && a < |m| && c < |m'|
    ensures m'[c] == m[a] && k in m[a] && m[a][k].Nested?
  {
    i :| 0 <= i < |stored| && !(Flat(Deref(m, stored[i].metadata)) && Flat(Deref(m, stored[i].spec)));
    CopiesHaveTheEntries(m, stored, m', returned, i);
    if Flat(Deref(m, stored[i].metadata)) {
      a, c := stored[i].spec.value, returned[i].spec.value;
    } else {
      a, c := stored[i].metadata.value, returned[i].metadata.value;
    }
    k :| k in m[a] && m[a][k].Nested?;
  }

  lemma EditOfReachable(m: Memory, rules: seq<Rule>, i: nat, c: nat, path: seq<string>, b: nat, edited: Memory)
    requires i < |rules| && Holds(rules[i], c) && path != [] && Follow(m, c, path) == Some(Nested(b))
    requires |edited| == |m| && forall d :: 0 <= d < |m| && d != b ==> edited[d] == m[d]
    ensures EditedThrough(m, rules, edited)
  {
    assert ReachedFrom(m, rules[i], b);
    assert Reachable(m, rules, b);
  }

  /** Where a stored rule has a nested map, something that is written through the returned rules is read through
      the store. */
  lemma NestedEditsReachTheStore(m: Memory, stored: seq<Rule>, m': Memory, returned: seq<Rule>) returns (edited: Memory)
    requires Closed(m) && Copied(m, stored, m', returned) && |returned| == |stored| && !AllFlat(m, stored)
    ensures EditedThrough(m', returned, edited) && !SameDeepReading(m', edited, stored)
  {
    var i, a, c, k := PickNested(m, stored, m', returned);
    var b, path;
    assert m'[a] == m[a];
    edited, b, path := NestedEditIsRead(m', a, c, k);
    EditOfReachable(m', returned, i, c, [k], b, edited);
  }

  /** Nothing written through the returned rules, at any depth, is read through the store if and only if no metadata or
      spec map of the stored rules holds a nested map. */
  lemma IsolatedIff(m: Memory, stored: seq<Rule>, m': Memory, returned: seq<Rule>)
    requires Closed(m) && Copied(m, stored, m', returned) && |returned| == |stored|
    ensures Isolated(m', stored, returned) <==> AllFlat(m, stored)
  {
    if AllFlat(m, stored) {
      FlatRulesAreIsolated(m, stored, m', returned);
    } else {
      var edited := NestedEditsReachTheStore(m, stored, m', returned);
    }
  }

  /** Selecting the rules of a kind from the sorted snapshot is sorting the selection. */
  lemma RulesSelectionCommutesWithSort(copies: seq<Rule>, kind: string, accept: Rule -> bool)
    ensures Filter(StableSort(copies, ByPriority()), Wanted(kind, accept))
            == StableSort(Filter(copies, Wanted(kind, accept)), ByPriority())
  {
    SortCommutesWithFilter(copies, Wanted(kind, accept), ByPriority());
  }
}
