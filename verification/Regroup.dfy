/** Instances flattened to one record per endpoint, and put together again from the records in any order. */
module Regroup {
  import opened Instances
  import opened Options
  import opened Selecting

  /** How one record is read: the instance it belongs to, that instance without endpoints, and its endpoint. */
  datatype Reading<!R> = Reading(id: R -> string, base: R -> Instance, endpoint: R -> Endpoint)

  ghost predicate Sound<R(!new)>(f: Reading<R>, t: Rules) {
    && (forall r :: f.base(r).instanceId == f.id(r) && f.base(r).endpoints == [])
    && (forall r :: NormalizeEndpoint(f.endpoint(r), t) == f.endpoint(r))
  }

  function Of<R>(id: string, f: Reading<R>): R -> Option<R> {
    (r: R) => if f.id(r) == id then Some(r) else None
  }

  function EndpointOf<R>(id: string, f: Reading<R>): R -> Option<Endpoint> {
    (r: R) => if f.id(r) == id then Some(f.endpoint(r)) else None
  }

  /** The endpoints of an instance in the order its records arrive. */
  function Arrived<R>(rs: seq<R>, id: string, f: Reading<R>): seq<Endpoint> {
    Chosen(rs, EndpointOf(id, f))
  }

  /** What stands for an id that some record has: the fields of its first record with the endpoints of all. A blank id
      is never taken for one that was seen, so that its last record alone counts. */
  function GroupOf<R>(rs: seq<R>, id: string, f: Reading<R>, t: Rules): Option<Instance> {
    Whole(Chosen(rs, Of(id, f)), Arrived(rs, id, f), id, f, t)
  }

  function Whole<R>(mine: seq<R>, arrived: seq<Endpoint>, id: string, f: Reading<R>, t: Rules): Option<Instance> {
    if mine == [] then None
    else if t.trim(id) != "" then Some(NormalizeInstance(f.base(mine[0]).(endpoints := arrived), t))
    else
      var last := mine[|mine| - 1];
      Some(NormalizeInstance(f.base(last).(endpoints := [f.endpoint(last)]), t))
  }

  lemma NormalizeAppends(i: Instance, e: Endpoint, t: Rules)
    requires Lawful(t)
    ensures NormalizeInstance(NormalizeInstance(i, t).(endpoints := NormalizeInstance(i, t).endpoints + [e]), t)
            == NormalizeInstance(i.(endpoints := i.endpoints + [e]), t)
  {
    var n := NormalizeInstance(i, t);
    NormalizeIdempotent(e, i, Query("", "", "", []), t);
    assert NormalizeEndpoints(n.endpoints + [e], t) == NormalizeEndpoints(i.endpoints + [e], t) by {
      forall k | 0 <= k < |i.endpoints| ensures NormalizeEndpoint(n.endpoints[k], t) == n.endpoints[k] {
        NormalizeIdempotent(i.endpoints[k], i, Query("", "", "", []), t);
      }
    }
  }

  /** One more record extends what its id has, or begins it. */
  function Extended<R>(before: Option<Instance>, r: R, f: Reading<R>, t: Rules): Instance {
    var i := if before.None? || before.value.instanceId == "" then f.base(r) else before.value;
    NormalizeInstance(i.(endpoints := i.endpoints + [f.endpoint(r)]), t)
  }

  lemma WholeExtends<R(!new)>(mine: seq<R>, arrived: seq<Endpoint>, id: string, r: R, f: Reading<R>, t: Rules)
    requires Lawful(t) && Sound(f, t) && f.id(r) == id && (mine != [] ==> f.id(mine[0]) == id)
             && (mine == [] ==> arrived == [])
    requires mine != [] ==> f.id(mine[|mine| - 1]) == id
    ensures Whole(mine + [r], arrived + [f.endpoint(r)], id, f, t)
            == Some(Extended(Whole(mine, arrived, id, f, t), r, f, t))
  {
    assert (mine + [r])[|mine|] == r && [] + [f.endpoint(r)] == [f.endpoint(r)];
    if mine != [] && t.trim(id) != "" {
      NormalizeAppends(f.base(mine[0]).(endpoints := arrived), f.endpoint(r), t);
    }
  }

  /** One more record: its group is extended, or begun; no other group changes. */
  lemma GroupNext<R(!new)>(rs: seq<R>, k: nat, id: string, f: Reading<R>, t: Rules)
    requires Lawful(t) && Sound(f, t) && k < |rs|
    ensures GroupOf(rs[..k + 1], id, f, t)
            == if f.id(rs[k]) != id then GroupOf(rs[..k], id, f, t)
               else Some(Extended(GroupOf(rs[..k], id, f, t), rs[k], f, t))
  {
    var r := rs[k];
    var mine := Chosen(rs[..k], Of(id, f));
    ChosenNext(rs, k, Of(id, f));
    ChosenNext(rs, k, EndpointOf(id, f));
    if f.id(r) != id {
      assert mine + [] == mine && Arrived(rs[..k], id, f) + [] == Arrived(rs[..k], id, f);
    } else {
      MineHaveTheId(rs[..k], id, f);
      assert mine != [] ==> mine[0] in mine && mine[|mine| - 1] in mine;
      if mine == [] { NothingArrived(rs[..k], id, f); }
      WholeExtends(mine, Arrived(rs[..k], id, f), id, r, f, t);
    }
  }

  /** The first record of an ID gives the instance's fields and its endpoint; one more gives one more endpoint. Of a
      blank ID the last record alone counts, and a record of another ID changes nothing. */
  lemma GroupMeans<R(!new)>(rs: seq<R>, r: R, id: string, f: Reading<R>, t: Rules)
    requires Lawful(t) && Sound(f, t)
    ensures GroupOf([], id, f, t) == None
    ensures f.id(r) != id ==> GroupOf(rs + [r], id, f, t) == GroupOf(rs, id, f, t)
    ensures f.id(r) == id && (GroupOf(rs, id, f, t).None? || t.trim(id) == "") ==>
              GroupOf(rs + [r], id, f, t) == Some(NormalizeInstance(f.base(r).(endpoints := [f.endpoint(r)]), t))
    ensures f.id(r) == id && GroupOf(rs, id, f, t).Some? && t.trim(id) != "" ==>
              var before := GroupOf(rs, id, f, t).value;
              GroupOf(rs + [r], id, f, t) == Some(before.(endpoints := before.endpoints + [f.endpoint(r)]))
  {
    var all := rs + [r];
    assert all[..|rs|] == rs && all[..|rs| + 1] == all && all[|rs|] == r;
    GroupNext(all, |rs|, id, f, t);
    assert [] + [f.endpoint(r)] == [f.endpoint(r)];
    if f.id(r) == id && GroupOf(rs, id, f, t).Some? && t.trim(id) != "" {
      GroupHasTheId(rs, id, f, t);
      StaysNormal(GroupOf(rs, id, f, t).value, f.endpoint(r), t);
    }
  }

  lemma StaysNormal(i: Instance, e: Endpoint, t: Rules)
    requires Lawful(t) && NormalizeInstance(i, t) == i && NormalizeEndpoint(e, t) == e
    ensures NormalizeInstance(i.(endpoints := i.endpoints + [e]), t) == i.(endpoints := i.endpoints + [e])
  {
    assert NormalizeEndpoints(i.endpoints, t) == i.endpoints;
    assert NormalizeEndpoints(i.endpoints + [e], t) == i.endpoints + [e];
  }

  /** A group has its ID, trimmed, and is in normal form. */
  lemma GroupHasTheId<R(!new)>(rs: seq<R>, id: string, f: Reading<R>, t: Rules)
    requires Lawful(t) && Sound(f, t)
    ensures GroupOf(rs, id, f, t).Some? ==>
              GroupOf(rs, id, f, t).value.instanceId == t.trim(id)
              && NormalizeInstance(GroupOf(rs, id, f, t).value, t) == GroupOf(rs, id, f, t).value
  {
    var mine := Chosen(rs, Of(id, f));
    MineHaveTheId(rs, id, f);
    if mine != [] {
      var e := Endpoint("", "", "", 0, "", 0);
      assert mine[0] in mine && mine[|mine| - 1] in mine;
      var first := f.base(mine[0]).(endpoints := Arrived(rs, id, f));
      var last := f.base(mine[|mine| - 1]).(endpoints := [f.endpoint(mine[|mine| - 1])]);
      NormalizeIdempotent(e, first, Query("", "", "", []), t);
      NormalizeIdempotent(e, last, Query("", "", "", []), t);
    }
  }

  lemma {:induction false} NothingArrived<R>(rs: seq<R>, id: string, f: Reading<R>)
    requires Chosen(rs, Of(id, f)) == []
    ensures Arrived(rs, id, f) == []
  {
    if rs == [] {
    } else {
      NothingArrived(rs[1..], id, f);
    }
  }

  lemma MineHaveTheId<R>(rs: seq<R>, id: string, f: Reading<R>)
    ensures forall r | r in Chosen(rs, Of(id, f)) :: f.id(r) == id && r in rs
    ensures forall r | r in rs && f.id(r) == id :: r in Chosen(rs, Of(id, f))
  {
    ChosenMembers(rs, Of(id, f));
    assert forall r | r in rs && f.id(r) == id :: Of(id, f)(r) == Some(r);
  }

  function Looked(grouped: map<string, Instance>, id: string): Option<Instance> {
    if id in grouped then Some(grouped[id]) else None
  }

  /** The map holds the group of every id that some record has, and nothing else. */
  ghost predicate Groups<R(!new)>(grouped: map<string, Instance>, rs: seq<R>, f: Reading<R>, t: Rules) {
    forall id :: GroupOf(rs, id, f, t) == Looked(grouped, id)
  }

  const NO_INSTANCE: Instance := Instance("", "", "", "", map[], map[], [], 0)

  lemma GroupsNext<R(!new)>(grouped: map<string, Instance>, rs: seq<R>, k: nat, f: Reading<R>, t: Rules)
    requires Lawful(t) && Sound(f, t) && k < |rs| && Groups(grouped, rs[..k], f, t)
    ensures Groups(grouped[f.id(rs[k]) := Extended(Looked(grouped, f.id(rs[k])), rs[k], f, t)], rs[..k + 1], f, t)
  {
    var r := rs[k];
    var grouped' := grouped[f.id(r) := Extended(Looked(grouped, f.id(r)), r, f, t)];
    forall id ensures GroupOf(rs[..k + 1], id, f, t) == Looked(grouped', id) {
      GroupNext(rs, k, id, f, t);
      assert GroupOf(rs[..k], id, f, t) == Looked(grouped, id);
    }
  }

  lemma NoGroups<R(!new)>(f: Reading<R>, t: Rules)
    ensures Groups(map[], [], f, t)
  {
  }

  /** Groups the records in a map. */
  method GroupRecords<R(!new)>(rs: seq<R>, f: Reading<R>, t: Rules) returns (grouped: map<string, Instance>)
    requires Lawful(t) && Sound(f, t)
    ensures Groups(grouped, rs, f, t)
  {
    grouped := map[];
    NoGroups(f, t);
    assert rs[..0] == [];
    for k := 0 to |rs|
      invariant Groups(grouped, rs[..k], f, t)
    {
      var r := rs[k];
      var id := f.id(r);
      var instance := if id in grouped then grouped[id] else NO_INSTANCE;
      if instance.instanceId == "" { instance := f.base(r); }
      GroupsNext(grouped, rs, k, f, t);
      var normalized := Normalize(instance.(endpoints := instance.endpoints + [f.endpoint(r)]), t);
      grouped := grouped[id := normalized];
    }
    assert rs[..|rs|] == rs;
  }

  /** `instances` are the groups of all records, each once, in the order of `ids`. */
  ghost predicate Lists<R(!new)>(instances: seq<Instance>, ids: seq<string>, rs: seq<R>, f: Reading<R>, t: Rules) {
    && |ids| == |instances| && (forall i, j :: 0 <= i < j < |ids| ==> ids[i] != ids[j])
    && (forall j :: 0 <= j < |ids| ==> GroupOf(rs, ids[j], f, t) == Some(instances[j]))
    && (forall id | GroupOf(rs, id, f, t).Some? :: id in ids)
  }

  /** Lists the groups in any order. */
  method InstancesOf<R(!new)>(rs: seq<R>, f: Reading<R>, t: Rules) returns (instances: seq<Instance>)
    requires Lawful(t) && Sound(f, t)
    ensures exists ids :: Lists(instances, ids, rs, f, t)
  {
    var grouped := GroupRecords(rs, f, t);
    ghost var ids;
    instances, ids := Listed(grouped);
    forall j | 0 <= j < |ids| ensures GroupOf(rs, ids[j], f, t) == Some(instances[j]) {
      assert GroupOf(rs, ids[j], f, t) == Looked(grouped, ids[j]);
    }
    forall id | GroupOf(rs, id, f, t).Some? ensures id in ids {
      assert GroupOf(rs, id, f, t) == Looked(grouped, id);
    }
    assert Lists(instances, ids, rs, f, t);
  }

  // ---------- Flattening first ----------

  function Flattened<R>(xs: seq<Instance>, records: Instance -> seq<R>): seq<R> {
    if xs == [] then [] else records(xs[0]) + Flattened(xs[1..], records)
  }

  function AllEndpoints<R>(rs: seq<R>, f: Reading<R>): (r: seq<Endpoint>)
    ensures |r| == |rs| && forall i :: 0 <= i < |rs| ==> r[i] == f.endpoint(rs[i])
  {
    seq(|rs|, i requires 0 <= i < |rs| => f.endpoint(rs[i]))
  }

  /** The records of `x` read back as `x`, record by record. */
  ghost predicate Faithful<R>(x: Instance, records: Instance -> seq<R>, f: Reading<R>, t: Rules) {
    && NormalizeInstance(x, t) == x && x.instanceId != ""
    && records(x) != [] && AllEndpoints(records(x), f) == x.endpoints
    && forall r | r in records(x) :: f.base(r) == x.(endpoints := [], ttlSeconds := 0) && f.id(r) == x.instanceId
  }

  ghost predicate DistinctIds(xs: seq<Instance>) {
    forall i, j :: 0 <= i < j < |xs| ==> xs[i].instanceId != xs[j].instanceId
  }

  lemma {:induction false} OneInstanceArrives<R>(rs: seq<R>, id: string, f: Reading<R>)
    ensures (forall r | r in rs :: f.id(r) == id) ==> Arrived(rs, id, f) == AllEndpoints(rs, f)
    ensures (forall r | r in rs :: f.id(r) != id) ==> Arrived(rs, id, f) == []
  {
    if rs == [] {
    } else {
      OneInstanceArrives(rs[1..], id, f);
      assert AllEndpoints(rs, f) == [f.endpoint(rs[0])] + AllEndpoints(rs[1..], f);
      assert rs[0] in rs;
    }
  }

  /** A flattened record belongs to one of the instances. */
  lemma {:induction false} RecordHasAnInstance<R>(xs: seq<Instance>, records: Instance -> seq<R>, r: R)
    requires r in Flattened(xs, records)
    ensures exists k :: 0 <= k < |xs| && r in records(xs[k])
  {
    if r in records(xs[0]) {
    } else {
      RecordHasAnInstance(xs[1..], records, r);
      var k :| 0 <= k < |xs[1..]| && r in records(xs[1..][k]);
      assert xs[k + 1] == xs[1..][k];
    }
  }

  lemma NothingArrivesOf<R>(xs: seq<Instance>, id: string, records: Instance -> seq<R>, f: Reading<R>, t: Rules)
    requires (forall k :: 0 <= k < |xs| ==> Faithful(xs[k], records, f, t) && xs[k].instanceId != id)
    ensures Arrived(Flattened(xs, records), id, f) == []
  {
    forall r | r in Flattened(xs, records) ensures f.id(r) != id {
      RecordHasAnInstance(xs, records, r);
    }
    OneInstanceArrives(Flattened(xs, records), id, f);
  }

  lemma OwnRecordsArrive<R>(x: Instance, id: string, records: Instance -> seq<R>, f: Reading<R>, t: Rules)
    requires Faithful(x, records, f, t)
    ensures Arrived(records(x), id, f) == if x.instanceId == id then x.endpoints else []
  {
    OneInstanceArrives(records(x), id, f);
  }

  lemma FlattenedSplits<R>(xs: seq<Instance>, id: string, records: Instance -> seq<R>, f: Reading<R>)
    requires xs != []
    ensures Arrived(Flattened(xs, records), id, f)
            == Arrived(records(xs[0]), id, f) + Arrived(Flattened(xs[1..], records), id, f)
  {
    ChosenConcat(records(xs[0]), Flattened(xs[1..], records), EndpointOf(id, f));
  }

  /** Flattened in order, an instance's records arrive with its endpoints in order. */
  lemma {:induction false} FlattenedArrives<R>(
    xs: seq<Instance>, n: nat, records: Instance -> seq<R>, f: Reading<R>, t: Rules)
    requires n < |xs| && DistinctIds(xs) && forall k :: 0 <= k < |xs| ==> Faithful(xs[k], records, f, t)
    ensures Arrived(Flattened(xs, records), xs[n].instanceId, f) == xs[n].endpoints
  {
    var rest, id := xs[1..], xs[n].instanceId;
    FlattenedSplits(xs, id, records, f);
    OwnRecordsArrive(xs[0], id, records, f, t);
    forall k | 0 <= k < |rest| ensures Faithful(rest[k], records, f, t) && rest[k] == xs[k + 1] {
      assert rest[k] == xs[k + 1];
    }
    if n == 0 {
      NothingArrivesOf(rest, id, records, f, t);
    } else {
      FlattenedArrives(rest, n - 1, records, f, t);
    }
  }

  lemma {:induction false} RecordsAreFlattened<R>(xs: seq<Instance>, n: nat, records: Instance -> seq<R>, r: R)
    requires n < |xs| && r in records(xs[n])
    ensures r in Flattened(xs, records)
  {
    if n == 0 {
    } else {
      assert xs[1..][n - 1] == xs[n];
      RecordsAreFlattened(xs[1..], n - 1, records, r);
    }
  }

  /** Whatever order the records arrive in, every instance is put together again, without its TTL and with its
      endpoints in arrival order, none lost and none twice. */
  lemma RegroupingRestores<R(!new)>(
    xs: seq<Instance>, rs: seq<R>, n: nat, records: Instance -> seq<R>, f: Reading<R>, t: Rules)
    requires Lawful(t) && Sound(f, t)
    requires n < |xs| && DistinctIds(xs) && forall k :: 0 <= k < |xs| ==> Faithful(xs[k], records, f, t)
    requires multiset(rs) == multiset(Flattened(xs, records))
    ensures var x := xs[n];
            GroupOf(rs, x.instanceId, f, t) == Some(x.(ttlSeconds := 0, endpoints := Arrived(rs, x.instanceId, f)))
            && multiset(Arrived(rs, x.instanceId, f)) == multiset(x.endpoints)
    ensures rs == Flattened(xs, records) ==> Arrived(rs, xs[n].instanceId, f) == xs[n].endpoints
  {
    var x, id := xs[n], xs[n].instanceId;
    FlattenedArrives(xs, n, records, f, t);
    ChosenPermutes(rs, Flattened(xs, records), EndpointOf(id, f));
    FirstOfMine(xs, rs, n, records, f, t);
    ArrivedIsNormalized(rs, id, f, t);
    BaseIsNormalized(x, Arrived(rs, id, f), t);
  }

  lemma SameMembers<R>(a: seq<R>, b: seq<R>)
    requires multiset(a) == multiset(b)
    ensures forall r :: r in a <==> r in b
  {
    assert forall r :: r in a <==> r in multiset(a);
    assert forall r :: r in b <==> r in multiset(b);
  }

  /** Some record has the instance's id, and the first one has its fields. */
  lemma FirstOfMine<R(!new)>(
    xs: seq<Instance>, rs: seq<R>, n: nat, records: Instance -> seq<R>, f: Reading<R>, t: Rules)
    requires n < |xs| && DistinctIds(xs) && forall k :: 0 <= k < |xs| ==> Faithful(xs[k], records, f, t)
    requires multiset(rs) == multiset(Flattened(xs, records))
    ensures var mine := Chosen(rs, Of(xs[n].instanceId, f));
            mine != [] && f.base(mine[0]) == xs[n].(endpoints := [], ttlSeconds := 0)
  {
    var x, id := xs[n], xs[n].instanceId;
    var mine, r0 := Chosen(rs, Of(id, f)), records(x)[0];
    assert r0 in records(x);
    RecordsAreFlattened(xs, n, records, r0);
    SameMembers(rs, Flattened(xs, records));
    MineHaveTheId(rs, id, f);
    assert r0 in mine && mine[0] in mine;
    RecordHasAnInstance(xs, records, mine[0]);
    var k :| 0 <= k < |xs| && mine[0] in records(xs[k]);
    assert xs[k].instanceId == id;
    assert k == n;
  }

  lemma ArrivedIsNormalized<R(!new)>(rs: seq<R>, id: string, f: Reading<R>, t: Rules)
    requires Sound(f, t)
    ensures NormalizeEndpoints(Arrived(rs, id, f), t) == Arrived(rs, id, f)
  {
    ChosenMembers(rs, EndpointOf(id, f));
    var es := Arrived(rs, id, f);
    forall k | 0 <= k < |es| ensures NormalizeEndpoint(es[k], t) == es[k] {
      assert es[k] in es;
    }
  }

  lemma BaseIsNormalized(x: Instance, es: seq<Endpoint>, t: Rules)
    requires NormalizeInstance(x, t) == x && NormalizeEndpoints(es, t) == es
    ensures t.trim(x.instanceId) == x.instanceId
    ensures NormalizeInstance(x.(endpoints := es, ttlSeconds := 0), t) == x.(endpoints := es, ttlSeconds := 0)
  {
  }

  /** No other instance comes out. */
  lemma NothingElseComesOut<R(!new)>(
    xs: seq<Instance>, rs: seq<R>, id: string, records: Instance -> seq<R>, f: Reading<R>, t: Rules)
    requires multiset(rs) == multiset(Flattened(xs, records))
    requires forall k :: 0 <= k < |xs| ==> Faithful(xs[k], records, f, t)
    requires GroupOf(rs, id, f, t).Some?
    ensures exists n :: 0 <= n < |xs| && xs[n].instanceId == id
  {
    var mine := Chosen(rs, Of(id, f));
    MineHaveTheId(rs, id, f);
    SameMembers(rs, Flattened(xs, records));
    assert mine[0] in mine;
    RecordHasAnInstance(xs, records, mine[0]);
  }
}
