/** Instances as Consul keeps them: one service with the first endpoint's address, the labels as tags, and the rest
    in the metadata. */
module Consul {
  import opened Instances
  import opened Labels

  datatype Names = Names(namespace: string, zone: string, protocol: string, path: string)

  function Reserved(n: Names): set<string> {
    {n.namespace, n.zone, n.protocol, n.path}
  }

  ghost predicate Apart(n: Names) {
    n.namespace !in {n.zone, n.protocol, n.path} && n.zone !in {n.protocol, n.path} && n.protocol != n.path
  }

  datatype Service = Service(
    id: string, name: string, address: string, port: int, weight: int, tags: seq<string>, metadata: map<string, string>)

  function OwnFields(i: Instance, e: Endpoint, n: Names): map<string, string> {
    map[n.namespace := i.namespace, n.zone := i.zone, n.protocol := e.protocol, n.path := e.path]
  }

  /** Registers the first endpoint only; the tags list the labels in some order. */
  method Registered(i: Instance, n: Names, t: Rules) returns (s: Service)
    requires i.endpoints != []
    ensures exists keys :: Enumerates(keys, i.labels) && s == ServiceOf(i, keys, n, t)
  {
    var e := i.endpoints[0];
    var tags := PrintLabels(i.labels, t);
    ghost var keys :| Enumerates(keys, i.labels) && tags == Printed(keys, i.labels, t);
    s := Service(i.instanceId, i.service, e.host, e.port, if e.weight <= 0 then DEFAULT_WEIGHT else e.weight,
                 tags, i.metadata + OwnFields(i, e, n));
    assert s == ServiceOf(i, keys, n, t);
  }

  function ServiceOf(i: Instance, keys: seq<string>, n: Names, t: Rules): Service
    requires i.endpoints != []
  {
    var e := i.endpoints[0];
    Service(i.instanceId, i.service, e.host, e.port, if e.weight <= 0 then DEFAULT_WEIGHT else e.weight,
            Printed(keys, i.labels, t), i.metadata + OwnFields(i, e, n))
  }

  /** What is registered, field by field. */
  lemma ServiceMeans(i: Instance, keys: seq<string>, n: Names, t: Rules)
    requires i.endpoints != [] && Apart(n)
    ensures var s, e := ServiceOf(i, keys, n, t), i.endpoints[0];
            && s == Service(i.instanceId, i.service, e.host, e.port, if e.weight > 0 then e.weight else 100,
                            Printed(keys, i.labels, t), s.metadata)
            && s.metadata - {n.namespace, n.zone, n.protocol, n.path}
               == i.metadata - {n.namespace, n.zone, n.protocol, n.path}
            && {n.namespace, n.zone, n.protocol, n.path} <= s.metadata.Keys
            && s.metadata[n.namespace] == i.namespace && s.metadata[n.zone] == i.zone
            && s.metadata[n.protocol] == e.protocol && s.metadata[n.path] == e.path
  {
    FieldsMean(i.metadata, i, i.endpoints[0], n);
  }

  lemma FieldsMean(base: map<string, string>, i: Instance, e: Endpoint, n: Names)
    requires Apart(n)
    ensures var own, all := {n.namespace, n.zone, n.protocol, n.path}, base + OwnFields(i, e, n);
            && all - own == base - own && own <= all.Keys
            && all[n.namespace] == i.namespace && all[n.zone] == i.zone
            && all[n.protocol] == e.protocol && all[n.path] == e.path
  {
  }

  /** A service that was registered by something else: the namespace asked for, the protocol that stands for a blank
      one, no zone, no path, and its whole metadata. */
  lemma ForeignServiceMeans(namespace: string, s: Service, n: Names, t: Rules)
    requires Lawful(t) && forall k | k in {n.namespace, n.zone, n.protocol, n.path} :: k !in s.metadata
    ensures InstanceFrom(namespace, s, n, t)
            == NormalizeInstance(
                 Instance(namespace, s.name, s.id, "", LabelsOf(s.tags, t), s.metadata,
                          [Endpoint(t.protocol, t.protocol, s.address, s.port, "", s.weight)], 0), t)
  {
    assert s.metadata - Reserved(n) == s.metadata;
  }

  function Get(m: map<string, string>, k: string): string {
    if k in m then m[k] else ""
  }

  /** What is read has one endpoint, named after its protocol. */
  function InstanceFrom(namespace: string, s: Service, n: Names, t: Rules): Instance {
    var protocol := OrDefault(Get(s.metadata, n.protocol), t.protocol, t);
    NormalizeInstance(
      Instance(if Get(s.metadata, n.namespace) != "" then Get(s.metadata, n.namespace) else namespace,
               s.name, s.id, Get(s.metadata, n.zone), LabelsOf(s.tags, t), s.metadata - Reserved(n),
               [Endpoint(protocol, protocol, s.address, s.port, Get(s.metadata, n.path), s.weight)], 0), t)
  }

  /** A registered instance reads back with its first endpoint under its protocol's name, what the tags keep of its
      labels, its metadata without the reserved keys, and no TTL. */
  lemma ReadsBack(namespace: string, i: Instance, keys: seq<string>, n: Names, t: Rules)
    requires Lawful(t) && Apart(n) && i.endpoints != [] && NormalizeInstance(i, t) == i
    ensures var e := i.endpoints[0];
            InstanceFrom(namespace, ServiceOf(i, keys, n, t), n, t)
            == i.(labels := LabelsOf(Printed(keys, i.labels, t), t), metadata := i.metadata - Reserved(n),
                  endpoints := [e.(name := e.protocol)], ttlSeconds := 0)
  {
    var e, m := i.endpoints[0], i.metadata + OwnFields(i, i.endpoints[0], n);
    OwnFieldsReadBack(i, e, n);
    NormalizedEndpoint(i, t);
    OwnFieldsAreReserved(i, e, n);
    FieldsAreRead(namespace, ServiceOf(i, keys, n, t), i, e, n, t);
    NormalizedAgain(i, LabelsOf(Printed(keys, i.labels, t), t), m - Reserved(n), e.(name := e.protocol), t);
  }

  lemma OwnFieldsAreReserved(i: Instance, e: Endpoint, n: Names)
    ensures i.metadata + OwnFields(i, e, n) - Reserved(n) == i.metadata - Reserved(n)
  {
  }

  /** What is read of a service, before it is normalized. */
  lemma FieldsAreRead(namespace: string, s: Service, i: Instance, e: Endpoint, n: Names, t: Rules)
    requires Get(s.metadata, n.namespace) == i.namespace != "" && Get(s.metadata, n.zone) == i.zone
    requires Get(s.metadata, n.protocol) == e.protocol && Get(s.metadata, n.path) == e.path
    requires OrDefault(e.protocol, t.protocol, t) == e.protocol
    ensures InstanceFrom(namespace, s, n, t)
            == NormalizeInstance(
                 Instance(i.namespace, s.name, s.id, i.zone, LabelsOf(s.tags, t), s.metadata - Reserved(n),
                          [Endpoint(e.protocol, e.protocol, s.address, s.port, e.path, s.weight)], 0), t)
  {
  }

  lemma OwnFieldsReadBack(i: Instance, e: Endpoint, n: Names)
    requires Apart(n)
    ensures var m := i.metadata + OwnFields(i, e, n);
            Get(m, n.namespace) == i.namespace && Get(m, n.zone) == i.zone && Get(m, n.protocol) == e.protocol
              && Get(m, n.path) == e.path
  {
  }

  lemma NormalizedEndpoint(i: Instance, t: Rules)
    requires Lawful(t) && i.endpoints != [] && NormalizeInstance(i, t) == i
    ensures i.endpoints[0].weight > 0 && OrDefault(i.endpoints[0].protocol, t.protocol, t) == i.endpoints[0].protocol
    ensures var e := i.endpoints[0].(name := i.endpoints[0].protocol); NormalizeEndpoint(e, t) == e
  {
    var e := i.endpoints[0];
    assert NormalizeEndpoints(i.endpoints, t)[0] == NormalizeEndpoint(e, t) == e;
  }

  lemma NormalizedAgain(i: Instance, labels: map<string, string>, metadata: map<string, string>, e: Endpoint, t: Rules)
    requires Lawful(t) && NormalizeInstance(i, t) == i && NormalizeEndpoint(e, t) == e
    ensures i.namespace != ""
    ensures var r := Instance(i.namespace, i.service, i.instanceId, i.zone, labels, metadata, [e], 0);
            NormalizeInstance(r, t) == r
  {
    NormalizeIdempotent(e, i, Query("", "", "", []), t);
    assert NormalizeEndpoints([e], t) == [e];
  }

  /** The round trip is exact, but for the TTL, if and only if there is one endpoint, named after its protocol, the
      labels survive the tags and the metadata uses no reserved key. */
  lemma RoundTripIff(namespace: string, i: Instance, keys: seq<string>, n: Names, t: Rules, trimEnd: string -> string)
    requires Lawful(t) && Apart(n) && i.endpoints != [] && NormalizeInstance(i, t) == i
    requires TagsReadBack(t, trimEnd) && Enumerates(keys, i.labels)
    ensures InstanceFrom(namespace, ServiceOf(i, keys, n, t), n, t) == i.(ttlSeconds := 0)
            <==> |i.endpoints| == 1 && i.endpoints[0].name == i.endpoints[0].protocol
                 && (forall k | k in i.labels :: CleanKey(k, t) && Kept(i.labels[k], t, trimEnd) == i.labels[k])
                 && (forall k | k in Reserved(n) :: k !in i.metadata)
  {
    ReadsBack(namespace, i, keys, n, t);
    TagsRoundTripIff(keys, i.labels, t, trimEnd);
    NothingRemovedIff(i.metadata, Reserved(n));
    var e := i.endpoints[0];
    OneEndpointIff(i.endpoints, e.(name := e.protocol));
  }

  lemma NothingRemovedIff(m: map<string, string>, s: set<string>)
    ensures m - s == m <==> forall k | k in s :: k !in m
  {
    if m - s == m {
      forall k | k in s ensures k !in m {
        assert k !in m - s;
      }
    }
  }

  lemma OneEndpointIff(es: seq<Endpoint>, e: Endpoint)
    requires es != []
    ensures [e] == es <==> |es| == 1 && es[0] == e
  {
  }
}
