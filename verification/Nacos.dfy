/** Instances as Nacos keeps them: one record per endpoint, with what Nacos has no field for in the metadata. */
module Nacos {
  import opened Instances
  import opened Options
  import opened Regroup
  import opened Text

  /** The metadata keys of an instance's own fields, and the prefix of its labels. */
  datatype Names = Names(
    namespace: string, zone: string, instanceId: string, endpointName: string,
    protocol: string, path: string, weight: string, labelPrefix: string)

  function Reserved(n: Names): set<string> {
    {n.namespace, n.zone, n.instanceId, n.endpointName, n.protocol, n.path, n.weight}
  }

  /** The keys are different from each other and from every label's. */
  ghost predicate Apart(n: Names) {
    && n.namespace !in {n.zone, n.instanceId, n.endpointName, n.protocol, n.path, n.weight}
    && n.zone !in {n.instanceId, n.endpointName, n.protocol, n.path, n.weight}
    && n.instanceId !in {n.endpointName, n.protocol, n.path, n.weight}
    && n.endpointName !in {n.protocol, n.path, n.weight}
    && n.protocol !in {n.path, n.weight}
    && n.path != n.weight
    && forall k | k in Reserved(n) :: !HasPrefix(k, n.labelPrefix)
  }

  /** A record; the server assigns `instanceId` and may qualify the service name with a group. */
  datatype Record = Record(
    instanceId: string, ip: string, port: nat, weight: int, metadata: map<string, string>, serviceName: string)

  // ---------- Metadata ----------

  function OwnFields(i: Instance, e: Endpoint, n: Names): map<string, string> {
    map[n.namespace := i.namespace, n.zone := i.zone, n.instanceId := i.instanceId, n.endpointName := e.name,
        n.protocol := e.protocol, n.path := e.path,
        n.weight := Itoa(if e.weight <= 0 then DEFAULT_WEIGHT else e.weight)]
  }

  /** What stands for a metadata key: a label, an own field, or the instance's metadata. */
  function MetadataAt(i: Instance, e: Endpoint, k: string, n: Names): Option<string> {
    if HasPrefix(k, n.labelPrefix) && k[|n.labelPrefix|..] in i.labels then Some(i.labels[k[|n.labelPrefix|..]])
    else if k in OwnFields(i, e, n) then Some(OwnFields(i, e, n)[k])
    else if k in i.metadata then Some(i.metadata[k])
    else None
  }

  function At(m: map<string, string>, k: string): Option<string> {
    if k in m then Some(m[k]) else None
  }

  /** The metadata, the own fields over it, and over both the labels under their prefix. */
  ghost predicate IsMetadata(m: map<string, string>, i: Instance, e: Endpoint, n: Names) {
    forall k :: At(m, k) == MetadataAt(i, e, k, n)
  }

  /** Whatever the metadata says: a label is found under its prefixed name, an own field under its key, and all else is
      the instance's metadata. */
  lemma MetadataMeans(m: map<string, string>, i: Instance, e: Endpoint, n: Names)
    requires Apart(n) && IsMetadata(m, i, e, n)
    ensures forall name | name in i.labels :: At(m, n.labelPrefix + name) == Some(i.labels[name])
    ensures At(m, n.namespace) == Some(i.namespace) && At(m, n.zone) == Some(i.zone)
    ensures At(m, n.instanceId) == Some(i.instanceId) && At(m, n.endpointName) == Some(e.name)
    ensures At(m, n.protocol) == Some(e.protocol) && At(m, n.path) == Some(e.path)
    ensures At(m, n.weight) == Some(Itoa(if e.weight > 0 then e.weight else 100))
    ensures forall k | k !in Reserved(n) && !HasPrefix(k, n.labelPrefix) :: At(m, k) == At(i.metadata, k)
  {
    forall name | name in i.labels ensures At(m, n.labelPrefix + name) == Some(i.labels[name]) {
      PrefixedKey(n.labelPrefix, name);
      assert At(m, n.labelPrefix + name) == MetadataAt(i, e, n.labelPrefix + name, n);
    }
    forall k | k in Reserved(n) ensures At(m, k) == Some(OwnFields(i, e, n)[k]) {
      assert At(m, k) == MetadataAt(i, e, k, n);
    }
    assert forall k :: At(m, k) == MetadataAt(i, e, k, n);
  }

  lemma PrefixedKey(prefix: string, name: string)
    ensures HasPrefix(prefix + name, prefix) && (prefix + name)[|prefix|..] == name
  {
  }

  lemma PrefixedKeyIs(prefix: string, k: string)
    requires HasPrefix(k, prefix)
    ensures prefix + k[|prefix|..] == k
  {
  }

  /** The label that a metadata key stands for. */
  function LabelOf(k: string, n: Names): Option<string> {
    if HasPrefix(k, n.labelPrefix) then Some(k[|n.labelPrefix|..]) else None
  }

  /** The labels outside `left` lie over `base`. */
  ghost predicate Overlaid(m: map<string, string>, base: map<string, string>, labels: map<string, string>,
                           left: set<string>, n: Names) {
    forall k :: At(m, k) ==
      if LabelOf(k, n).Some? && LabelOf(k, n).value in labels && LabelOf(k, n).value !in left
      then Some(labels[LabelOf(k, n).value]) else At(base, k)
  }

  lemma OverlaidNext(m: map<string, string>, base: map<string, string>, labels: map<string, string>,
                     left: set<string>, name: string, n: Names)
    requires Overlaid(m, base, labels, left, n) && name in left && name in labels
    ensures Overlaid(m[n.labelPrefix + name := labels[name]], base, labels, left - {name}, n)
  {
    PrefixedKey(n.labelPrefix, name);
    var m' := m[n.labelPrefix + name := labels[name]];
    forall k ensures At(m', k) ==
      if LabelOf(k, n).Some? && LabelOf(k, n).value in labels && LabelOf(k, n).value !in left - {name}
      then Some(labels[LabelOf(k, n).value]) else At(base, k)
    {
      ghost var was := At(m, k);
      if HasPrefix(k, n.labelPrefix) { PrefixedKeyIs(n.labelPrefix, k); }
    }
  }

  /** Lays the labels over the metadata and the own fields, in any order. */
  method NacosMetadata(i: Instance, e: Endpoint, n: Names) returns (m: map<string, string>)
    ensures IsMetadata(m, i, e, n)
  {
    var base := i.metadata + OwnFields(i, e, n);
    m := base;
    var left := i.labels.Keys;
    while left != {}
      invariant left <= i.labels.Keys && Overlaid(m, base, i.labels, left, n)
    {
      var name :| name in left;
      OverlaidNext(m, base, i.labels, left, name, n);
      left := left - {name};
      m := m[n.labelPrefix + name := i.labels[name]];
    }
  }

  // ---------- Reading a record ----------

  function LabelsIn(m: map<string, string>, n: Names): map<string, string> {
    map name | name in (set k | k in m && HasPrefix(k, n.labelPrefix) :: k[|n.labelPrefix|..])
      && n.labelPrefix + name in m
      :: m[n.labelPrefix + name]
  }

  /** What is left of the metadata without labels and own fields. */
  function RestOf(m: map<string, string>, n: Names): map<string, string> {
    map k | k in m && !HasPrefix(k, n.labelPrefix) && k !in Reserved(n) :: m[k]
  }

  lemma LabelsInAre(m: map<string, string>, n: Names, name: string)
    ensures name in LabelsIn(m, n) <==> n.labelPrefix + name in m
    ensures n.labelPrefix + name in m ==> LabelsIn(m, n)[name] == m[n.labelPrefix + name]
  {
    PrefixedKey(n.labelPrefix, name);
  }

  /** Moves the labels out of the metadata, then deletes the own fields. */
  method SplitMetadata(m: map<string, string>, n: Names)
    returns (labels: map<string, string>, rest: map<string, string>)
    ensures labels == LabelsIn(m, n) && rest == RestOf(m, n)
  {
    labels, rest := map[], m;
    var left := m.Keys;
    while left != {}
      invariant left <= m.Keys
      invariant forall k :: At(rest, k) == if HasPrefix(k, n.labelPrefix) && k !in left then None else At(m, k)
      invariant forall name :: At(labels, name) == if n.labelPrefix + name in left then None
                else At(m, n.labelPrefix + name)
    {
      var key :| key in left;
      left := left - {key};
      if HasPrefix(key, n.labelPrefix) {
        var name := key[|n.labelPrefix|..];
        PrefixedKeyIs(n.labelPrefix, key);
        ghost var before := labels;
        labels := labels[name := m[key]];
        rest := rest - {key};
        forall other
          ensures At(labels, other) == if n.labelPrefix + other in left then None else At(m, n.labelPrefix + other)
        {
          ghost var was := At(before, other);
          PrefixedKey(n.labelPrefix, other);
        }
      } else {
        forall other ensures n.labelPrefix + other != key {
          PrefixedKey(n.labelPrefix, other);
        }
      }
    }
    rest := rest - Reserved(n);
    forall name ensures At(labels, name) == At(LabelsIn(m, n), name) {
      LabelsInAre(m, n, name);
    }
    SameMaps(labels, LabelsIn(m, n));
    forall k ensures At(rest, k) == At(RestOf(m, n), k) {
    }
    SameMaps(rest, RestOf(m, n));
  }

  predicate CleanMetadata(m: map<string, string>, n: Names) {
    forall k | k in m :: k !in Reserved(n) && !HasPrefix(k, n.labelPrefix)
  }

  /** A record gives back the instance's metadata and labels if and only if the metadata uses no reserved key
      and no label's prefix. */
  lemma MetadataRoundTripIff(m: map<string, string>, i: Instance, e: Endpoint, n: Names)
    requires Apart(n) && IsMetadata(m, i, e, n)
    ensures RestOf(m, n) == i.metadata && LabelsIn(m, n) == i.labels <==> CleanMetadata(i.metadata, n)
  {
    if CleanMetadata(i.metadata, n) {
      RestRoundTrip(m, i, e, n);
      LabelsRoundTrip(m, i, e, n);
    } else {
      var k :| k in i.metadata && (k in Reserved(n) || HasPrefix(k, n.labelPrefix));
      assert k !in RestOf(m, n);
    }
  }

  lemma RestRoundTrip(m: map<string, string>, i: Instance, e: Endpoint, n: Names)
    requires Apart(n) && IsMetadata(m, i, e, n) && CleanMetadata(i.metadata, n)
    ensures RestOf(m, n) == i.metadata
  {
    forall k ensures At(RestOf(m, n), k) == At(i.metadata, k) {
      assert At(m, k) == MetadataAt(i, e, k, n);
    }
    SameMaps(RestOf(m, n), i.metadata);
  }

  lemma LabelsRoundTrip(m: map<string, string>, i: Instance, e: Endpoint, n: Names)
    requires Apart(n) && IsMetadata(m, i, e, n) && CleanMetadata(i.metadata, n)
    ensures LabelsIn(m, n) == i.labels
  {
    forall name ensures At(LabelsIn(m, n), name) == At(i.labels, name) {
      var k := n.labelPrefix + name;
      PrefixedKey(n.labelPrefix, name);
      LabelsInAre(m, n, name);
      assert At(m, k) == MetadataAt(i, e, k, n);
      assert k !in Reserved(n);
    }
    SameMaps(LabelsIn(m, n), i.labels);
  }

  lemma SameMaps(a: map<string, string>, b: map<string, string>)
    requires forall k :: At(a, k) == At(b, k)
    ensures a == b
  {
    forall k | k in a ensures k in b && a[k] == b[k] {
      assert At(a, k) == At(b, k);
    }
    forall k | k in b ensures k in a {
      assert At(a, k) == At(b, k);
    }
  }

  /** The own fields are read back from any instance. */
  lemma OwnFieldsReadBack(m: map<string, string>, i: Instance, e: Endpoint, n: Names)
    requires Apart(n) && IsMetadata(m, i, e, n)
    ensures Get(m, n.namespace) == i.namespace && Get(m, n.zone) == i.zone && Get(m, n.instanceId) == i.instanceId
    ensures Get(m, n.endpointName) == e.name && Get(m, n.protocol) == e.protocol && Get(m, n.path) == e.path
  {
    forall k | k in Reserved(n) ensures At(m, k) == Some(OwnFields(i, e, n)[k]) {
      assert At(m, k) == MetadataAt(i, e, k, n);
    }
    assert At(m, n.namespace).Some? && At(m, n.zone).Some? && At(m, n.instanceId).Some?;
    assert At(m, n.endpointName).Some? && At(m, n.protocol).Some? && At(m, n.path).Some?;
  }

  function Get(m: map<string, string>, k: string): string {
    if k in m then m[k] else ""
  }

  /** The id in the metadata, else the server's, else the address. */
  function RecordId(r: Record, n: Names): string {
    if Get(r.metadata, n.instanceId) != "" then Get(r.metadata, n.instanceId)
    else if r.instanceId != "" then r.instanceId
    else r.ip + ":" + Itoa(r.port)
  }

  function Base(r: Record, namespace: string, n: Names, t: Rules, serviceOf: string -> string): Instance {
    Instance(OrDefault(Get(r.metadata, n.namespace), namespace, t), serviceOf(r.serviceName), RecordId(r, n),
             Get(r.metadata, n.zone), LabelsIn(r.metadata, n), RestOf(r.metadata, n), [], 0)
  }

  function EndpointIn(r: Record, n: Names, t: Rules): Endpoint {
    NormalizeEndpoint(Endpoint(Get(r.metadata, n.endpointName), OrDefault(Get(r.metadata, n.protocol), t.protocol, t),
                               r.ip, r.port, Get(r.metadata, n.path), r.weight), t)
  }

  /** The ID in the metadata, else the server's, else the address and port. */
  lemma RecordIdMeans(r: Record, n: Names)
    ensures RecordId(r, n)
            == if n.instanceId in r.metadata && r.metadata[n.instanceId] != "" then r.metadata[n.instanceId]
               else if r.instanceId != "" then r.instanceId
               else r.ip + ":" + Itoa(r.port)
  {
  }

  /** A record that was registered by something else: the namespace asked for, the protocol that stands for a blank
      one, no zone, no name, no path, no labels, and its whole metadata. */
  lemma ForeignRecordMeans(r: Record, namespace: string, n: Names, t: Rules, serviceOf: string -> string)
    requires Lawful(t) && forall k | k in r.metadata :: k !in Reserved(n) && !HasPrefix(k, n.labelPrefix)
    ensures Base(r, namespace, n, t, serviceOf)
            == Instance(namespace, serviceOf(r.serviceName), RecordId(r, n), "", map[], r.metadata, [], 0)
    ensures EndpointIn(r, n, t) == NormalizeEndpoint(Endpoint("", t.protocol, r.ip, r.port, "", r.weight), t)
  {
    assert RestOf(r.metadata, n) == r.metadata;
    forall name ensures n.labelPrefix + name !in r.metadata {
      PrefixedKey(n.labelPrefix, name);
    }
    assert LabelsIn(r.metadata, n) == map[];
  }

  /** How the adapter reads the records found in a namespace. */
  function ReadingOf(namespace: string, n: Names, t: Rules, serviceOf: string -> string): Reading<Record> {
    Reading((r: Record) => RecordId(r, n), (r: Record) => Base(r, namespace, n, t, serviceOf),
      (r: Record) => EndpointIn(r, n, t))
  }

  lemma ReadingIsSound(namespace: string, n: Names, t: Rules, serviceOf: string -> string)
    requires Lawful(t)
    ensures Sound(ReadingOf(namespace, n, t, serviceOf), t)
  {
    forall r ensures NormalizeEndpoint(EndpointIn(r, n, t), t) == EndpointIn(r, n, t) {
      NormalizeIdempotent(Endpoint(Get(r.metadata, n.endpointName),
        OrDefault(Get(r.metadata, n.protocol), t.protocol, t),
                                   r.ip, r.port, Get(r.metadata, n.path), r.weight),
                          Instance("", "", "", "", map[], map[], [], 0), Query("", "", "", []), t);
    }
  }

  // ---------- The round trip ----------

  /** What the registry accepts for registration. */
  predicate Valid(i: Instance) {
    i.namespace != "" && i.service != "" && i.instanceId != "" && i.endpoints != []
    && forall k :: 0 <= k < |i.endpoints| ==> i.endpoints[k].host != "" && i.endpoints[k].port > 0
  }

  /** The record of endpoint `e` of `i`, whatever id the server gives it. */
  ghost predicate IsRecordOf(r: Record, i: Instance, e: Endpoint, n: Names, serviceOf: string -> string) {
    r.ip == e.host && r.port == e.port && r.weight == e.weight && IsMetadata(r.metadata, i, e, n)
      && serviceOf(r.serviceName) == i.service
  }

  lemma RecordReadsBack(
    r: Record, i: Instance, e: Endpoint, namespace: string, n: Names, t: Rules, serviceOf: string -> string)
    requires Lawful(t) && Apart(n) && NormalizeInstance(i, t) == i && NormalizeEndpoint(e, t) == e && i.instanceId != ""
    requires CleanMetadata(i.metadata, n) && IsRecordOf(r, i, e, n, serviceOf)
    ensures RecordId(r, n) == i.instanceId && EndpointIn(r, n, t) == e
    ensures Base(r, namespace, n, t, serviceOf) == i.(endpoints := [], ttlSeconds := 0)
  {
    OwnFieldsReadBack(r.metadata, i, e, n);
    MetadataRoundTripIff(r.metadata, i, e, n);
  }

  /** The records of an instance: one per endpoint, in order. */
  ghost predicate AreRecordsOf(rs: seq<Record>, i: Instance, n: Names, serviceOf: string -> string) {
    |rs| == |i.endpoints| && forall k :: 0 <= k < |rs| ==> IsRecordOf(rs[k], i, i.endpoints[k], n, serviceOf)
  }

  lemma RecordsReadBack(
    i: Instance, records: Instance -> seq<Record>, namespace: string, n: Names, t: Rules, serviceOf: string -> string)
    requires Lawful(t) && Apart(n) && NormalizeInstance(i, t) == i && Valid(i) && CleanMetadata(i.metadata, n)
    requires AreRecordsOf(records(i), i, n, serviceOf)
    ensures Faithful(i, records, ReadingOf(namespace, n, t, serviceOf), t)
  {
    var rs, f := records(i), ReadingOf(namespace, n, t, serviceOf);
    forall k | 0 <= k < |rs|
      ensures f.base(rs[k]) == i.(endpoints := [], ttlSeconds := 0) && f.id(rs[k]) == i.instanceId
              && f.endpoint(rs[k]) == i.endpoints[k]
    {
      assert NormalizeEndpoint(i.endpoints[k], t) == i.endpoints[k];
      RecordReadsBack(rs[k], i, i.endpoints[k], namespace, n, t, serviceOf);
    }
  }

  ghost predicate Registrable(
    xs: seq<Instance>, records: Instance -> seq<Record>, n: Names, t: Rules, serviceOf: string -> string) {
    DistinctIds(xs) &&
    forall k :: 0 <= k < |xs| ==>
      NormalizeInstance(xs[k], t) == xs[k] && Valid(xs[k]) && CleanMetadata(xs[k].metadata, n)
        && AreRecordsOf(records(xs[k]), xs[k], n, serviceOf)
  }

  /** Whatever order the records of registered instances arrive in, reading them gives back exactly these
      instances, without TTL and with the endpoints in arrival order. */
  method Discover(xs: seq<Instance>, rs: seq<Record>, records: Instance -> seq<Record>, namespace: string, n: Names,
                  t: Rules, serviceOf: string -> string)
    returns (found: seq<Instance>)
    requires Lawful(t) && Apart(n) && Registrable(xs, records, n, t, serviceOf)
    requires multiset(rs) == multiset(Flattened(xs, records))
    ensures |found| == |xs|
    ensures forall k :: 0 <= k < |xs| ==> GivesBack(found, xs[k], rs, ReadingOf(namespace, n, t, serviceOf))
    ensures rs == Flattened(xs, records) ==> forall k :: 0 <= k < |xs| ==> xs[k].(ttlSeconds := 0) in found
  {
    var f := ReadingOf(namespace, n, t, serviceOf);
    ReadingIsSound(namespace, n, t, serviceOf);
    forall k | 0 <= k < |xs| ensures Faithful(xs[k], records, f, t) {
      RecordsReadBack(xs[k], records, namespace, n, t, serviceOf);
    }
    found := InstancesOf(rs, f, t);
    ghost var ids :| Lists(found, ids, rs, f, t);
    ListedInstancesGiveBack(found, ids, xs, rs, records, f, t);
  }

  /** The instance is found, with its endpoints in the order its records arrived, none lost and none twice. */
  ghost predicate GivesBack(found: seq<Instance>, x: Instance, rs: seq<Record>, f: Reading<Record>) {
    var arrived := Arrived(rs, x.instanceId, f);
    x.(ttlSeconds := 0, endpoints := arrived) in found && multiset(arrived) == multiset(x.endpoints)
  }

  lemma ListedInstancesGiveBack(found: seq<Instance>, ids: seq<string>, xs: seq<Instance>, rs: seq<Record>,
                                records: Instance -> seq<Record>, f: Reading<Record>, t: Rules)
    requires Lawful(t) && Sound(f, t) && DistinctIds(xs)
    requires forall k :: 0 <= k < |xs| ==> Faithful(xs[k], records, f, t)
    requires multiset(rs) == multiset(Flattened(xs, records)) && Lists(found, ids, rs, f, t)
    ensures |found| == |xs|
    ensures forall k :: 0 <= k < |xs| ==> GivesBack(found, xs[k], rs, f)
    ensures rs == Flattened(xs, records) ==> forall k :: 0 <= k < |xs| ==> xs[k].(ttlSeconds := 0) in found
  {
    forall k | 0 <= k < |xs|
      ensures GivesBack(found, xs[k], rs, f) && xs[k].instanceId in ids
      ensures rs == Flattened(xs, records) ==> xs[k].(ttlSeconds := 0) in found
    {
      RegroupingRestores(xs, rs, k, records, f, t);
      ListedOneIsFound(found, ids, xs[k], Arrived(rs, xs[k].instanceId, f), rs, f, t);
    }
    forall j | 0 <= j < |ids| ensures HasId(xs, ids[j]) {
      NothingElseComesOut(xs, rs, ids[j], records, f, t);
    }
    SameCount(ids, xs);
  }

  lemma ListedOneIsFound(found: seq<Instance>, ids: seq<string>, x: Instance, arrived: seq<Endpoint>, rs: seq<Record>,
                         f: Reading<Record>, t: Rules)
    requires Lists(found, ids, rs, f, t)
    requires GroupOf(rs, x.instanceId, f, t) == Some(x.(ttlSeconds := 0, endpoints := arrived))
    ensures x.(ttlSeconds := 0, endpoints := arrived) in found && x.instanceId in ids
    ensures arrived == x.endpoints ==> x.(ttlSeconds := 0) in found
  {
    var j :| 0 <= j < |ids| && ids[j] == x.instanceId;
    assert found[j] == x.(ttlSeconds := 0, endpoints := arrived);
  }

  ghost predicate HasId(xs: seq<Instance>, id: string) {
    exists k :: 0 <= k < |xs| && xs[k].instanceId == id
  }

  function IdsOf(xs: seq<Instance>): (r: seq<string>)
    ensures |r| == |xs| && forall k :: 0 <= k < |xs| ==> r[k] == xs[k].instanceId
  {
    seq(|xs|, k requires 0 <= k < |xs| => xs[k].instanceId)
  }

  lemma SameCount(ids: seq<string>, xs: seq<Instance>)
    requires DistinctIds(xs) && forall i, j :: 0 <= i < j < |ids| ==> ids[i] != ids[j]
    requires forall k :: 0 <= k < |xs| ==> xs[k].instanceId in ids
    requires forall j :: 0 <= j < |ids| ==> HasId(xs, ids[j])
    ensures |ids| == |xs|
  {
    var a, b := ids, IdsOf(xs);
    NoDuplicatesCount(a);
    NoDuplicatesCount(b);
    assert Members(a) == Members(b) by {
      forall id | id in a ensures id in b {
        var j :| 0 <= j < |a| && a[j] == id;
        var k :| 0 <= k < |xs| && xs[k].instanceId == ids[j];
        assert b[k] == id;
      }
      forall id | id in b ensures id in a {
        var k :| 0 <= k < |b| && b[k] == id;
      }
    }
  }

  function Members(s: seq<string>): set<string> {
    set x | x in s
  }

  lemma {:induction false} NoDuplicatesCount(s: seq<string>)
    requires forall i, j :: 0 <= i < j < |s| ==> s[i] != s[j]
    ensures |Members(s)| == |s|
  {
    if s == [] {
    } else {
      var init, last := s[..|s| - 1], s[|s| - 1];
      NoDuplicatesCount(init);
      assert s == init + [last];
      assert Members(s) == Members(init) + {last};
      assert last !in Members(init);
    }
  }
}
