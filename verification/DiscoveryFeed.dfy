/** How the discovery resolver turns registry instances and registry events into what its cache holds,
    and that a cache fed with events agrees with resolving anew. */
module DiscoveryFeed {
  import opened CacheModel
  import opened FeedModel
  import opened KeyedLists
  import opened Options
  import opened Selecting
  import opened Text
  import D = Discovery
  import R = Instances

  /** A resolver's view of the registry: the instances its query keeps, the endpoints its target wants, how one is
      converted, how the cache normalizes and identifies the result, and the instance an identity belongs to. */
  datatype View = View(
    keep: R.Instance -> Option<R.Instance>, wanted: R.Endpoint -> bool, convert: (R.Instance, R.Endpoint) -> D.Endpoint,
    scheme: Scheme<D.Endpoint, D.Identity>, id: R.Instance -> string, owner: D.Identity -> string)

  ghost predicate Sound(v: View) {
    && (forall i, e :: v.scheme.normalize(v.convert(i, e)) == v.convert(i, e))
    && (forall i, e :: v.owner(v.scheme.key(v.convert(i, e))) == v.id(i))
    && (forall i :: v.keep(i).Some? ==> v.id(v.keep(i).value) == v.id(i))
  }

  function Converting(i: R.Instance, v: View): R.Endpoint -> Option<D.Endpoint> {
    (e: R.Endpoint) => if v.wanted(e) then Some(v.convert(i, e)) else None
  }

  function EndpointsOf(i: R.Instance, v: View): seq<D.Endpoint> {
    Chosen(i.endpoints, Converting(i, v))
  }

  /** The endpoints of instances that already passed the query. */
  function Passed(v: View): Feed<R.Instance, D.Endpoint, D.Identity, string> {
    Feed(v.id, (i: R.Instance) => EndpointsOf(i, v), v.scheme.key, v.owner)
  }

  /** The endpoints of the registry's instances. */
  function FeedOf(v: View): Feed<R.Instance, D.Endpoint, D.Identity, string> {
    Feed(v.id,
         (i: R.Instance) => if v.keep(i).Some? then EndpointsOf(v.keep(i).value, v) else [],
         v.scheme.key, v.owner)
  }

  /** The inner loop: appends the wanted endpoints of one instance. */
  method AppendEndpoints(endpoints: seq<D.Endpoint>, i: R.Instance, v: View) returns (r: seq<D.Endpoint>)
    ensures r == endpoints + EndpointsOf(i, v)
  {
    r := endpoints;
    for j := 0 to |i.endpoints|
      invariant r == endpoints + Chosen(i.endpoints[..j], Converting(i, v))
    {
      ChosenNext(i.endpoints, j, Converting(i, v));
      if !v.wanted(i.endpoints[j]) { continue; }
      r := r + [v.convert(i, i.endpoints[j])];
    }
    assert i.endpoints[..|i.endpoints|] == i.endpoints;
  }

  /** Every wanted endpoint of every instance, in order. */
  method EndpointsFromInstances(instances: seq<R.Instance>, v: View) returns (r: seq<D.Endpoint>)
    ensures r == Recompute(instances, Passed(v))
  {
    r := [];
    for k := 0 to |instances|
      invariant r == Recompute(instances[..k], Passed(v))
    {
      RecomputeNext(instances, k, v);
      r := AppendEndpoints(r, instances[k], v);
    }
    assert instances[..|instances|] == instances;
  }

  lemma RecomputeNext(instances: seq<R.Instance>, k: nat, v: View)
    requires k < |instances|
    ensures Recompute(instances[..k + 1], Passed(v))
            == Recompute(instances[..k], Passed(v)) + EndpointsOf(instances[k], v)
  {
    assert instances[..k + 1] == instances[..k] + [instances[k]];
    RecomputeConcat(instances[..k], [instances[k]], Passed(v));
  }

  lemma EndpointsAreConverted(i: R.Instance, es: seq<R.Endpoint>, x: D.Endpoint, v: View)
    requires Sound(v) && x in Chosen(es, Converting(i, v))
    ensures v.scheme.normalize(x) == x && v.owner(v.scheme.key(x)) == v.id(i)
  {
    ChosenMembers(es, Converting(i, v));
    var e :| e in es && Converting(i, v)(e) == Some(x);
  }

  lemma ExpandedIsConverted(i: R.Instance, x: D.Endpoint, v: View)
    requires Sound(v) && x in FeedOf(v).expand(i)
    ensures v.owner(v.scheme.key(x)) == v.id(i) && v.scheme.normalize(x) == x
  {
    var kept := v.keep(i);
    assert kept.Some?;
    EndpointsAreConverted(kept.value, kept.value.endpoints, x, v);
  }

  lemma ViewIsLawful(v: View)
    requires Sound(v)
    ensures FeedModel.Lawful(FeedOf(v))
    ensures forall i, x | x in FeedOf(v).expand(i) :: v.scheme.normalize(x) == x
  {
    forall i, x | x in FeedOf(v).expand(i) ensures v.owner(v.scheme.key(x)) == v.id(i) && v.scheme.normalize(x) == x {
      ExpandedIsConverted(i, x, v);
    }
  }

  /** Resolving: filter by the query, then convert. */
  lemma {:induction false} ResolvingIsRecomputing(registry: seq<R.Instance>, v: View)
    ensures Recompute(Chosen(registry, v.keep), Passed(v)) == Recompute(registry, FeedOf(v))
  {
    if registry == [] {
    } else {
      ResolvingIsRecomputing(registry[1..], v);
      var kept := v.keep(registry[0]);
      RecomputeConcat(Shown(kept), Chosen(registry[1..], v.keep), Passed(v));
      assert kept.Some? ==> Recompute([kept.value], Passed(v)) == EndpointsOf(kept.value, v);
    }
  }

  // ---------- Events ----------

  datatype Kind = BlankEvent | SnapshotEvent | UpsertEvent | DeleteEvent | OtherEvent

  datatype RegistryEvent = RegistryEvent(kind: Kind, instance: Option<R.Instance>, instances: seq<R.Instance>)

  datatype Event = Event(kind: Kind, endpoint: Option<D.Endpoint>, endpoints: seq<D.Endpoint>)

  function First(es: seq<D.Endpoint>): Option<D.Endpoint> {
    if es == [] then None else Some(es[0])
  }

  /** Of the event's instance only the first wanted endpoint is forwarded. */
  function Converted(e: RegistryEvent, v: View): Event {
    Event(
      if e.kind.BlankEvent? then SnapshotEvent else e.kind,
      if e.instance.None? then None else First(EndpointsOf(e.instance.value, v)),
      Recompute(e.instances, Passed(v)))
  }

  /** Skipped endpoints come before the first one that is chosen. */
  lemma {:induction false} FirstIsTheFirstWanted(i: R.Instance, es: seq<R.Endpoint>, v: View)
    ensures First(Chosen(es, Converting(i, v))).None? <==> forall j :: 0 <= j < |es| ==> !v.wanted(es[j])
    ensures First(Chosen(es, Converting(i, v))).Some? ==>
              exists j :: 0 <= j < |es| && v.wanted(es[j]) && (forall l :: 0 <= l < j ==> !v.wanted(es[l]))
                && First(Chosen(es, Converting(i, v))) == Some(v.convert(i, es[j]))
  {
    if es == [] {
    } else if v.wanted(es[0]) {
      assert First(Chosen(es, Converting(i, v))) == Some(v.convert(i, es[0]));
    } else {
      var rest := es[1..];
      FirstIsTheFirstWanted(i, rest, v);
      assert Chosen(es, Converting(i, v)) == Chosen(rest, Converting(i, v));
      assert forall j :: 0 < j < |es| ==> es[j] == rest[j - 1];
      if First(Chosen(rest, Converting(i, v))).Some? {
        var j :| 0 <= j < |rest| && v.wanted(rest[j]) && (forall l :: 0 <= l < j ==> !v.wanted(rest[l]))
          && First(Chosen(rest, Converting(i, v))) == Some(v.convert(i, rest[j]));
        assert es[j + 1] == rest[j];
        assert forall l :: 0 <= l < j + 1 ==> !v.wanted(es[l]);
      } else {
        assert forall j :: 0 <= j < |es| ==> !v.wanted(es[j]);
      }
    }
  }

  method Convert(e: RegistryEvent, v: View) returns (converted: Event)
    ensures converted == Converted(e, v)
    ensures converted.kind == if e.kind.BlankEvent? then SnapshotEvent else e.kind
    ensures e.instance.None? ==> converted.endpoint.None?
    // the first wanted endpoint of the instance is forwarded, and no other
    ensures e.instance.Some? ==>
              var es := e.instance.value.endpoints;
              && (converted.endpoint.None? <==> forall j :: 0 <= j < |es| ==> !v.wanted(es[j]))
              && (converted.endpoint.Some? ==>
                    exists j :: 0 <= j < |es| && v.wanted(es[j]) && (forall l :: 0 <= l < j ==> !v.wanted(es[l]))
                      && converted.endpoint == Some(v.convert(e.instance.value, es[j])))
  {
    if e.instance.Some? { FirstIsTheFirstWanted(e.instance.value, e.instance.value.endpoints, v); }
    converted := Event(e.kind, None, []);
    if converted.kind.BlankEvent? { converted := converted.(kind := SnapshotEvent); }
    if e.instance.Some? {
      var endpoints := EndpointsFromInstances([e.instance.value], v);
      assert Recompute([e.instance.value], Passed(v)) == EndpointsOf(e.instance.value, v);
      if |endpoints| > 0 { converted := converted.(endpoint := Some(endpoints[0])); }
    }
    if |e.instances| > 0 {
      var endpoints := EndpointsFromInstances(e.instances, v);
      converted := converted.(endpoints := endpoints);
    }
  }

  /** The locked section an event runs in the cache: anything but an upsert or a delete replaces everything. */
  function UpdateOf(e: Event, now: Time): Update<D.Endpoint> {
    match e.kind
    case UpsertEvent => if e.endpoint.None? then Ignore else Upsert(e.endpoint.value, now)
    case DeleteEvent => if e.endpoint.None? then Ignore else Delete(e.endpoint.value, now)
    case _ => Replace(e.endpoints, now)
  }

  /** What each kind of event does to the cache. */
  lemma UpdateOfMeans(e: Event, now: Time)
    ensures e.kind == UpsertEvent && e.endpoint.Some? ==> UpdateOf(e, now) == Upsert(e.endpoint.value, now)
    ensures e.kind == DeleteEvent && e.endpoint.Some? ==> UpdateOf(e, now) == Delete(e.endpoint.value, now)
    ensures (e.kind == UpsertEvent || e.kind == DeleteEvent) && e.endpoint.None? ==> UpdateOf(e, now) == Ignore
    ensures e.kind != UpsertEvent && e.kind != DeleteEvent ==> UpdateOf(e, now) == Replace(e.endpoints, now)
  {
  }

  /** A change of the registry and the version of a deleted instance that its event carries. */
  datatype Write = Put(i: R.Instance) | Drop(id: string, last: R.Instance)

  /** The events the registry publishes: none for an instance that the query does not keep. */
  function Published(w: Write, v: View): seq<RegistryEvent> {
    match w
    case Put(i) => if v.keep(i).None? then [] else [RegistryEvent(UpsertEvent, v.keep(i), [])]
    case Drop(_, last) => [RegistryEvent(DeleteEvent, Some(last), [])]
  }

  function ChangeOf(w: Write, v: View): Change<R.Instance, D.Endpoint, string> {
    match w
    case Put(i) => Change.Written(i)
    case Drop(id, last) => Change.Deleted(id, First(EndpointsOf(last, v)))
  }

  function Updates(es: seq<RegistryEvent>, now: Time, v: View): seq<Update<D.Endpoint>> {
    seq(|es|, k requires 0 <= k < |es| => UpdateOf(Converted(es[k], v), now))
  }

  /** What the event of a write does to the cache is what the feed model says. */
  lemma WriteIsTold(c: Cache<D.Endpoint>, w: Write, now: Time, v: View)
    requires Sound(v)
    ensures CacheModel.Run(c, Updates(Published(w, v), now, v), v.scheme).endpoints
            == Told(c.endpoints, ChangeOf(w, v), FeedOf(v))
    ensures w.Drop? && v.id(w.last) == w.id ==> WellFormed(ChangeOf(w, v), FeedOf(v))
  {
    var es := Published(w, v);
    if es != [] {
      var us := Updates(es, now, v);
      var u := UpdateOf(Converted(es[0], v), now);
      assert us == [u] && us[..0] == [];
      assert CacheModel.Run(c, us[..0], v.scheme) == c;
      var i := es[0].instance.value;
      if EndpointsOf(i, v) != [] {
        EndpointsAreConverted(i, i.endpoints, EndpointsOf(i, v)[0], v);
      }
    }
  }

  /** A snapshot event, as a refresh does, leaves exactly what resolving the registry anew yields. */
  lemma SnapshotIsRecomputing(c: Cache<D.Endpoint>, registry: seq<R.Instance>, kind: Kind, now: Time, v: View)
    requires Sound(v) && !kind.UpsertEvent? && !kind.DeleteEvent?
    ensures var event := Converted(RegistryEvent(kind, None, Chosen(registry, v.keep)), v);
            Apply(c, UpdateOf(event, now), v.scheme).endpoints
            == Recompute(registry, FeedOf(v))
  {
    ResolvingIsRecomputing(registry, v);
    var all := Recompute(registry, FeedOf(v));
    ViewIsLawful(v);
    forall k | 0 <= k < |all| ensures v.scheme.normalize(all[k]) == all[k] {
      RecomputeOwners(registry, all[k], FeedOf(v));
    }
  }

  /** Only one endpoint of an instance gets through: a new instance is told faithfully exactly when it has at most
      one wanted endpoint, and deleting one that has several never is. */
  lemma OnlyOneEndpointIsForwarded(
    before: seq<D.Endpoint>, after: seq<D.Endpoint>, carried: Option<D.Endpoint>, v: View)
    requires Distinct(before, v.scheme.key)
    ensures UpsertIsFaithful([], after, v.scheme.key) <==> |after| <= 1
    ensures |before| >= 2 ==> !DeleteIsFaithful(before, carried, v.scheme.key)
  {
    if after != [] {
      assert |multiset(after[1..])| == |after| - 1;
      assert Remove([], v.scheme.key(after[0]), v.scheme.key) == [];
    }
    if |before| >= 2 {
      assert before[0] in before && before[1] in before;
    }
  }

  // ---------- Runs ----------

  function Changes(ws: seq<Write>, v: View): seq<Change<R.Instance, D.Endpoint, string>> {
    seq(|ws|, k requires 0 <= k < |ws| => ChangeOf(ws[k], v))
  }

  /** The cache after the events of the writes, each applied at its own time. */
  function Fed(c: Cache<D.Endpoint>, ws: seq<Write>, times: seq<Time>, v: View): Cache<D.Endpoint>
    requires |ws| == |times|
  {
    if ws == [] then c
    else
      var n := |ws| - 1;
      CacheModel.Run(Fed(c, ws[..n], times[..n], v), Updates(Published(ws[n], v), times[n], v), v.scheme)
  }

  lemma {:induction false} FedIsTold(c: Cache<D.Endpoint>, ws: seq<Write>, times: seq<Time>, v: View)
    requires Sound(v) && |ws| == |times|
    ensures Fed(c, ws, times, v).endpoints == CacheAfter(c.endpoints, Changes(ws, v), FeedOf(v))
  {
    if ws == [] {
    } else {
      var n := |ws| - 1;
      var before := Fed(c, ws[..n], times[..n], v);
      FedIsTold(c, ws[..n], times[..n], v);
      WriteIsTold(before, ws[n], times[n], v);
      ChangesNext(c.endpoints, ws, v);
    }
  }

  lemma ChangesNext(cache: seq<D.Endpoint>, ws: seq<Write>, v: View)
    requires ws != []
    ensures var n := |ws| - 1;
            CacheAfter(cache, Changes(ws, v), FeedOf(v))
            == Told(CacheAfter(cache, Changes(ws[..n], v), FeedOf(v)), ChangeOf(ws[n], v), FeedOf(v))
  {
    var n := |ws| - 1;
    assert Changes(ws, v)[..n] == Changes(ws[..n], v);
  }

  /** After every one of the writes, the fed cache holds what resolving anew would, up to order. */
  ghost predicate FedAlwaysAgrees(
    c: Cache<D.Endpoint>, registry: seq<R.Instance>, ws: seq<Write>, times: seq<Time>, v: View)
    requires |ws| == |times|
  {
    && Agrees(Fed(c, ws, times, v).endpoints, RegistryAfter(registry, Changes(ws, v), FeedOf(v)), FeedOf(v))
    && (ws == [] || FedAlwaysAgrees(c, registry, ws[..|ws| - 1], times[..|ws| - 1], v))
  }

  lemma {:induction false} FedAgreesIff(
    c: Cache<D.Endpoint>, registry: seq<R.Instance>, ws: seq<Write>, times: seq<Time>, v: View)
    requires Sound(v) && |ws| == |times| && c.endpoints == Recompute(registry, FeedOf(v))
    ensures FedAlwaysAgrees(c, registry, ws, times, v) <==> AlwaysAgrees(registry, Changes(ws, v), FeedOf(v))
  {
    FedIsTold(c, ws, times, v);
    if ws == [] {
    } else {
      var n := |ws| - 1;
      FedAgreesIff(c, registry, ws[..n], times[..n], v);
      assert Changes(ws, v)[..n] == Changes(ws[..n], v);
    }
  }

  /** Fed from a snapshot with the event of every later write, the cache agrees with resolving anew after every
      write if and only if every write is faithful: an upsert whose first wanted endpoint takes the place of all
      its instance contributed but the rest it still has, a delete that carries the identity of all of it. */
  lemma EventsAgreeIff(c: Cache<D.Endpoint>, registry: seq<R.Instance>, ws: seq<Write>, times: seq<Time>, v: View)
    requires Sound(v) && |ws| == |times| && c.endpoints == Recompute(registry, FeedOf(v))
    requires Distinct(registry, v.id) && Distinct(c.endpoints, v.scheme.key)
    requires forall k :: 0 <= k < |ws| && ws[k].Drop? ==> v.id(ws[k].last) == ws[k].id
    ensures FedAlwaysAgrees(c, registry, ws, times, v) <==> AlwaysFaithful(registry, Changes(ws, v), FeedOf(v))
  {
    ViewIsLawful(v);
    forall k | 0 <= k < |ws| ensures WellFormed(Changes(ws, v)[k], FeedOf(v)) {
      WriteIsTold(c, ws[k], 1, v);
    }
    RunAgreesIff(registry, Changes(ws, v), FeedOf(v));
    FedAgreesIff(c, registry, ws, times, v);
  }

  /** What the query keeps of the registry's version of an instance. */
  function Version(registry: seq<R.Instance>, id: string, v: View): Option<R.Instance> {
    if registry == [] then None
    else if v.id(registry[0]) == id then v.keep(registry[0])
    else Version(registry[1..], id, v)
  }

  lemma {:induction false} ContributionOfVersion(registry: seq<R.Instance>, id: string, v: View)
    ensures Contribution(registry, id, FeedOf(v))
            == if Version(registry, id, v).Some? then EndpointsOf(Version(registry, id, v).value, v) else []
  {
    if registry == [] {
    } else {
      ContributionOfVersion(registry[1..], id, v);
    }
  }

  /** An instance shows at most one endpoint, an upsert keeps the identity of the one that was there, and a delete
      carries the registry's version. */
  ghost predicate Steady(registry: seq<R.Instance>, w: Write, v: View) {
    match w
    case Put(i) =>
      var before, after := Contribution(registry, v.id(i), FeedOf(v)), FeedOf(v).expand(i);
      && |before| <= 1 && |after| <= 1
      && (before != [] ==> after != [] && v.scheme.key(after[0]) == v.scheme.key(before[0]))
    case Drop(id, last) =>
      && |Contribution(registry, id, FeedOf(v))| <= 1
      && (Version(registry, id, v).Some? ==> last == Version(registry, id, v).value)
  }

  ghost predicate AlwaysSteady(registry: seq<R.Instance>, ws: seq<Write>, v: View) {
    ws == [] ||
    (var init := ws[..|ws| - 1];
     AlwaysSteady(registry, init, v)
     && Steady(RegistryAfter(registry, Changes(init, v), FeedOf(v)), ws[|ws| - 1], v))
  }

  lemma SteadyIsFaithful(registry: seq<R.Instance>, w: Write, v: View)
    requires Steady(registry, w, v)
    ensures Faithful(registry, ChangeOf(w, v), FeedOf(v))
  {
    match w
    case Put(i) =>
      SingleUpsertIsFaithfulIff(Contribution(registry, v.id(i), FeedOf(v)), FeedOf(v).expand(i), v.scheme.key);
    case Drop(id, last) =>
      ContributionOfVersion(registry, id, v);
  }

  lemma {:induction false} AlwaysSteadyIsFaithful(registry: seq<R.Instance>, ws: seq<Write>, v: View)
    requires AlwaysSteady(registry, ws, v)
    ensures AlwaysFaithful(registry, Changes(ws, v), FeedOf(v))
  {
    if ws == [] {
    } else {
      var n := |ws| - 1;
      AlwaysSteadyIsFaithful(registry, ws[..n], v);
      assert Changes(ws, v)[..n] == Changes(ws[..n], v);
      SteadyIsFaithful(RegistryAfter(registry, Changes(ws[..n], v), FeedOf(v)), ws[n], v);
    }
  }

  /** So incremental and recomputed caches agree after every write of a run of steady ones. */
  lemma SteadyEventsAgree(c: Cache<D.Endpoint>, registry: seq<R.Instance>, ws: seq<Write>, times: seq<Time>, v: View)
    requires Sound(v) && |ws| == |times| && c.endpoints == Recompute(registry, FeedOf(v))
    requires Distinct(registry, v.id) && Distinct(c.endpoints, v.scheme.key)
    requires forall k :: 0 <= k < |ws| && ws[k].Drop? ==> v.id(ws[k].last) == ws[k].id
    requires AlwaysSteady(registry, ws, v)
    ensures FedAlwaysAgrees(c, registry, ws, times, v)
  {
    EventsAgreeIff(c, registry, ws, times, v);
    AlwaysSteadyIsFaithful(registry, ws, v);
  }

  // ---------- Subscribing ----------

  /** A watch publishes a snapshot first and only then asks for changes: writes that land in between are never told.
      The cache agrees with the registry after subscribing if and only if they leave every contribution as it was. */
  lemma SubscribingAgreesIff(
    c: Cache<D.Endpoint>, registry: seq<R.Instance>, gap: seq<Write>, kind: Kind, now: Time, v: View)
    requires Sound(v) && Distinct(registry, v.id) && !kind.UpsertEvent? && !kind.DeleteEvent?
    ensures var snapshot := RegistryEvent(kind, None, Chosen(registry, v.keep));
            var after := RegistryAfter(registry, Changes(gap, v), FeedOf(v));
            Agrees(Apply(c, UpdateOf(Converted(snapshot, v), now), v.scheme).endpoints, after, FeedOf(v))
            <==> SameContributions(registry, after, FeedOf(v))
  {
    SnapshotIsRecomputing(c, registry, kind, now, v);
    ViewIsLawful(v);
    RunStaysDistinct(registry, [], Changes(gap, v), FeedOf(v));
    RecomputeSameIff(registry, RegistryAfter(registry, Changes(gap, v), FeedOf(v)), FeedOf(v));
  }

  /** For instance, an instance with a wanted endpoint that is written in the gap is missed. */
  lemma GapWriteIsMissed(c: Cache<D.Endpoint>, i: R.Instance, kind: Kind, now: Time, v: View)
    requires Sound(v) && !kind.UpsertEvent? && !kind.DeleteEvent? && FeedOf(v).expand(i) != []
    ensures var snapshot := RegistryEvent(kind, None, Chosen([], v.keep));
            var after := RegistryAfter([], Changes([Put(i)], v), FeedOf(v));
            var cache := Apply(c, UpdateOf(Converted(snapshot, v), now), v.scheme);
            after == [i] && !Agrees(cache.endpoints, after, FeedOf(v))
  {
    var f, cs := FeedOf(v), Changes([Put(i)], v);
    assert cs[..0] == [] && RegistryAfter([], cs[..0], f) == [];
    assert RegistryAfter([], cs, f) == [i];
    SubscribingAgreesIff(c, [], [Put(i)], kind, now, v);
    assert Contribution([i], v.id(i), f) == f.expand(i);
    assert |multiset(f.expand(i))| == |f.expand(i)|;
    assert multiset(Contribution([], v.id(i), f)) != multiset(Contribution([i], v.id(i), f));
  }

  // ---------- The view of a target ----------

  datatype Target = Target(
    namespace: string, service: string, zone: string, protocol: string, endpointName: string, labels: seq<string>)

  function NormalizeTarget(t: Target): Target {
    t.(namespace := D.ValueOrDefault(t.namespace, "default"), service := Trim(t.service), zone := Trim(t.zone),
       protocol := D.NormalizeProtocol(t.protocol), endpointName := Trim(t.endpointName))
  }

  function QueryOf(t: Target): R.Query {
    var n := NormalizeTarget(t);
    R.Query(n.namespace, n.service, n.zone, n.labels)
  }

  /** The protocol agrees, and so does the name unless the target or the endpoint has none. */
  predicate Wants(t: Target, e: R.Endpoint) {
    EqualFold(e.protocol, t.protocol) && (t.endpointName == "" || e.name == "" || EqualFold(e.name, t.endpointName))
  }

  function ToEndpoint(i: R.Instance, e: R.Endpoint): D.Endpoint {
    D.Normalize(D.Endpoint(e.name, e.protocol, e.host, e.port, e.path, e.weight, i.instanceId, i.zone, i.labels,
      i.metadata))
  }

  function IdOf(i: R.Instance): string {
    Trim(i.instanceId)
  }

  function ViewOf(t: Target): View {
    View(R.Keeping(QueryOf(t), R.RULES), (e: R.Endpoint) => Wants(NormalizeTarget(t), e), ToEndpoint,
         D.SCHEME, IdOf, (k: D.Identity) => k.instanceId)
  }

  lemma ConvertedIsOwned(i: R.Instance, e: R.Endpoint)
    ensures D.Normalize(ToEndpoint(i, e)) == ToEndpoint(i, e)
    ensures D.IdentityOf(ToEndpoint(i, e)).instanceId == IdOf(i)
  {
    D.NormalizeIdempotent(D.Endpoint(e.name, e.protocol, e.host, e.port, e.path, e.weight, i.instanceId, i.zone,
      i.labels, i.metadata));
  }

  lemma KeptHasTheId(i: R.Instance, q: R.Query)
    requires R.Keeping(q, R.RULES)(i).Some?
    ensures IdOf(R.Keeping(q, R.RULES)(i).value) == IdOf(i)
  {
    TrimIdempotent(i.instanceId);
  }

  /** All that is proved of a sound view holds of every target. */
  lemma TargetViewIsSound(t: Target)
    ensures Sound(ViewOf(t))
  {
    var v := ViewOf(t);
    forall i, e
      ensures v.scheme.normalize(v.convert(i, e)) == v.convert(i, e)
              && v.owner(v.scheme.key(v.convert(i, e))) == v.id(i)
    {
      ConvertedIsOwned(i, e);
    }
    forall i | v.keep(i).Some? ensures v.id(v.keep(i).value) == v.id(i) {
      KeptHasTheId(i, QueryOf(t));
    }
  }

  // ---------- What a target gets ----------

  lemma EqualFoldLowered(a: string, b: string)
    ensures EqualFold(a, ToLower(b)) == EqualFold(a, b)
  {
    ToLowerIdempotent(b);
  }

  /** The protocol agrees up to case, and so does the name unless the target or the endpoint has none. */
  lemma WantsMeans(t: Target, e: R.Endpoint)
    ensures Wants(NormalizeTarget(t), e) <==>
              && EqualFold(e.protocol, if Trim(t.protocol) == "" then "http" else Trim(t.protocol))
              && (Trim(t.endpointName) == "" || e.name == "" || EqualFold(e.name, Trim(t.endpointName)))
  {
    EqualFoldLowered(e.protocol, D.ValueOrDefault(t.protocol, "http"));
  }

  /** Everything of the endpoint and of its instance, in normal form. */
  lemma ToEndpointMeans(i: R.Instance, e: R.Endpoint)
    ensures ToEndpoint(i, e) ==
              D.Endpoint(Trim(e.name), ToLower(if Trim(e.protocol) == "" then "http" else Trim(e.protocol)),
                         Trim(e.host), e.port, Trim(e.path), if e.weight <= 0 then 100 else e.weight,
                         Trim(i.instanceId), Trim(i.zone), i.labels, i.metadata)
  {
  }

  /** The query has the target's namespace, service, zone and labels. */
  lemma QueryMeans(t: Target)
    ensures QueryOf(t) ==
              R.Query(if Trim(t.namespace) == "" then "default" else Trim(t.namespace), Trim(t.service), Trim(t.zone),
                      t.labels)
  {
  }

  ghost predicate ComesFrom(x: D.Endpoint, instances: seq<R.Instance>, v: View) {
    exists i, e :: i in instances && e in i.endpoints && v.wanted(e) && x == v.convert(i, e)
  }

  lemma {:induction false} RecomputeMembers(instances: seq<R.Instance>, x: D.Endpoint, v: View)
    ensures x in Recompute(instances, Passed(v)) <==> ComesFrom(x, instances, v)
  {
    if instances == [] {
    } else {
      var i, rest := instances[0], instances[1..];
      RecomputeMembers(rest, x, v);
      ChosenMembers(i.endpoints, Converting(i, v));
      assert instances == [i] + rest;
      if x in EndpointsOf(i, v) {
        var e :| e in i.endpoints && Converting(i, v)(e) == Some(x);
        assert i in instances;
      }
      if ComesFrom(x, instances, v) {
        var j, e :| j in instances && e in j.endpoints && v.wanted(e) && x == v.convert(j, e);
        if j == i {
          assert Converting(i, v)(e) == Some(x);
        } else {
          assert j in rest;
        }
      }
      if ComesFrom(x, rest, v) {
        var j, e :| j in rest && e in j.endpoints && v.wanted(e) && x == v.convert(j, e);
        assert j in instances;
      }
    }
  }

  /** What a client of `t` is promised: an endpoint with the target's protocol up to case and, unless either has none,
      the target's name up to case, with all of the endpoint and of its instance in normal form. */
  predicate Serves(t: Target, i: R.Instance, e: R.Endpoint, x: D.Endpoint) {
    && EqualFold(e.protocol, if Trim(t.protocol) == "" then "http" else Trim(t.protocol))
    && (Trim(t.endpointName) == "" || e.name == "" || EqualFold(e.name, Trim(t.endpointName)))
    && x == D.Endpoint(Trim(e.name), ToLower(if Trim(e.protocol) == "" then "http" else Trim(e.protocol)),
                       Trim(e.host), e.port, Trim(e.path), if e.weight <= 0 then 100 else e.weight,
                       Trim(i.instanceId), Trim(i.zone), i.labels, i.metadata)
  }

  function ServedBy(t: Target): (R.Instance, R.Endpoint, D.Endpoint) -> bool {
    (i: R.Instance, e: R.Endpoint, x: D.Endpoint) => Serves(t, i, e, x)
  }

  lemma ViewServes(t: Target, i: R.Instance, e: R.Endpoint, x: D.Endpoint)
    ensures ServedBy(t)(i, e, x) <==> ViewOf(t).wanted(e) && x == ViewOf(t).convert(i, e)
  {
    ServesIff(t, i, e, x);
    ViewOfIs(t, i, e);
    assert ServedBy(t)(i, e, x) == Serves(t, i, e, x);
  }

  lemma ServesIff(t: Target, i: R.Instance, e: R.Endpoint, x: D.Endpoint)
    ensures Serves(t, i, e, x) <==> Wants(NormalizeTarget(t), e) && x == ToEndpoint(i, e)
  {
    WantsMeans(t, e);
    ToEndpointMeans(i, e);
  }

  lemma ViewOfIs(t: Target, i: R.Instance, e: R.Endpoint)
    ensures ViewOf(t).wanted(e) == Wants(NormalizeTarget(t), e) && ViewOf(t).convert(i, e) == ToEndpoint(i, e)
  {
  }

  ghost predicate SomeServes(
    serves: (R.Instance, R.Endpoint, D.Endpoint) -> bool, instances: seq<R.Instance>, x: D.Endpoint) {
    exists i, e :: i in instances && e in i.endpoints && serves(i, e, x)
  }

  /** The endpoints of a view that stands for `serves`. */
  method EndpointsServed(
    instances: seq<R.Instance>, v: View, ghost serves: (R.Instance, R.Endpoint, D.Endpoint) -> bool)
    returns (r: seq<D.Endpoint>)
    requires forall i, e, x :: serves(i, e, x) <==> v.wanted(e) && x == v.convert(i, e)
    ensures forall x :: x in r <==> SomeServes(serves, instances, x)
  {
    r := EndpointsFromInstances(instances, v);
    forall x ensures x in r <==> SomeServes(serves, instances, x) {
      RecomputeMembers(instances, x, v);
    }
  }

  /** The endpoints that resolving `t` finds in the instances: one is returned if and only if some instance
      serves it. */
  method EndpointsForTarget(instances: seq<R.Instance>, t: Target) returns (r: seq<D.Endpoint>)
    ensures forall x :: x in r <==> SomeServes(ServedBy(t), instances, x)
  {
    forall i, e, x ensures ServedBy(t)(i, e, x) <==> ViewOf(t).wanted(e) && x == ViewOf(t).convert(i, e) {
      ViewServes(t, i, e, x);
    }
    r := EndpointsServed(instances, ViewOf(t), ServedBy(t));
  }

  /** Instances of another zone, or without what the labels select, are left out; the others count in normal form. */
  method ResolveTarget(instances: seq<R.Instance>, t: Target) returns (r: seq<D.Endpoint>)
    ensures forall x :: x in r <==> SomeServes(ServedBy(t), R.Filtered(instances, QueryOf(t), R.RULES), x)
  {
    var kept := R.FilterInstances(instances, QueryOf(t), R.RULES);
    r := EndpointsForTarget(kept, t);
  }
}
