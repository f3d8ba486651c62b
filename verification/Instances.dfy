/** Service instances as the registry adapters exchange them: normal form, label selectors and the query filter. */
module Instances {
  import opened Options
  import opened Selecting
  import opened Text

  datatype Endpoint = Endpoint(name: string, protocol: string, host: string, port: int, path: string, weight: int)

  datatype Instance = Instance(
    namespace: string, service: string, instanceId: string, zone: string,
    labels: map<string, string>, metadata: map<string, string>, endpoints: seq<Endpoint>, ttlSeconds: int)

  datatype Query = Query(namespace: string, service: string, zone: string, labels: seq<string>)

  const DEFAULT_WEIGHT: int := 100

  /** The text rules of the normal form, as parameters so that no proof unfolds trimming: what a blank is
      trimmed by, and the namespace and protocol that stand for a blank one. */
  datatype Rules = Rules(trim: string -> string, namespace: string, protocol: string)

  const RULES: Rules := Rules(Trim, "default", "http")

  ghost predicate Lawful(t: Rules) {
    && (forall v :: t.trim(t.trim(v)) == t.trim(v))
    && t.trim(t.namespace) == t.namespace != ""
    && t.trim(t.protocol) == t.protocol != ""
    && t.trim("") == ""
  }

  lemma DefaultsAreTrimmed()
    ensures Trimmed("http", SPACES) && Trimmed("default", SPACES) && Trimmed("", SPACES)
  {
  }

  lemma RulesAreLawful()
    ensures Lawful(RULES)
  {
    DefaultsAreTrimmed();
    TrimmingIsLawful("default", "http", "");
  }

  lemma TrimmingIsLawful(namespace: string, protocol: string, blank: string)
    requires Trimmed(namespace, SPACES) && Trimmed(protocol, SPACES) && Trimmed(blank, SPACES)
    requires namespace != "" && protocol != "" && blank == ""
    ensures Lawful(Rules(Trim, namespace, protocol))
  {
    TrimmedIsFixed(namespace, SPACES);
    TrimmedIsFixed(protocol, SPACES);
    TrimmedIsFixed(blank, SPACES);
    forall v ensures Trim(Trim(v)) == Trim(v) {
      TrimIdempotent(v);
    }
  }

  /** The adapters trim white space and stand "default" and "http" for blank namespaces and protocols. */
  lemma RulesAre(v: string)
    ensures RULES.trim(v) == Trim(v) && RULES.namespace == "default" && RULES.protocol == "http"
  {
  }

  function OrDefault(value: string, fallback: string, t: Rules): string {
    if t.trim(value) != "" then value else fallback
  }

  function NormalizeEndpoint(e: Endpoint, t: Rules): Endpoint {
    Endpoint(t.trim(e.name), OrDefault(t.trim(e.protocol), t.protocol, t), t.trim(e.host), e.port, t.trim(e.path),
             if e.weight <= 0 then DEFAULT_WEIGHT else e.weight)
  }

  function NormalizeEndpoints(es: seq<Endpoint>, t: Rules): (r: seq<Endpoint>)
    ensures |r| == |es| && forall i :: 0 <= i < |es| ==> r[i] == NormalizeEndpoint(es[i], t)
  {
    seq(|es|, i requires 0 <= i < |es| => NormalizeEndpoint(es[i], t))
  }

  function NormalizeInstance(i: Instance, t: Rules): Instance {
    i.(namespace := OrDefault(t.trim(i.namespace), t.namespace, t), service := t.trim(i.service),
       instanceId := t.trim(i.instanceId), zone := t.trim(i.zone), endpoints := NormalizeEndpoints(i.endpoints, t))
  }

  function NormalizeQuery(q: Query, t: Rules): Query {
    q.(namespace := OrDefault(t.trim(q.namespace), t.namespace, t), service := t.trim(q.service),
      zone := t.trim(q.zone))
  }

  /** Normalizing endpoints, instances and queries is idempotent, and leaves no blank namespace or protocol. */
  lemma NormalizeIdempotent(e: Endpoint, i: Instance, q: Query, t: Rules)
    requires Lawful(t)
    ensures NormalizeEndpoint(NormalizeEndpoint(e, t), t) == NormalizeEndpoint(e, t)
    ensures NormalizeInstance(NormalizeInstance(i, t), t) == NormalizeInstance(i, t)
    ensures NormalizeQuery(NormalizeQuery(q, t), t) == NormalizeQuery(q, t)
    ensures NormalizeEndpoint(e, t).protocol != "" && NormalizeInstance(i, t).namespace != ""
  {
    assert NormalizeEndpoints(NormalizeEndpoints(i.endpoints, t), t) == NormalizeEndpoints(i.endpoints, t);
  }

  /** Texts are trimmed; a blank namespace or protocol is the one that stands for it, a weight that is not positive
      is 100; nothing else changes. */
  lemma NormalMeans(e: Endpoint, i: Instance, q: Query, t: Rules)
    requires Lawful(t)
    ensures NormalizeEndpoint(e, t)
            == Endpoint(t.trim(e.name), if t.trim(e.protocol) == "" then t.protocol else t.trim(e.protocol),
                        t.trim(e.host), e.port, t.trim(e.path), if e.weight > 0 then e.weight else 100)
    ensures NormalizeInstance(i, t)
            == Instance(if t.trim(i.namespace) == "" then t.namespace else t.trim(i.namespace), t.trim(i.service),
                        t.trim(i.instanceId), t.trim(i.zone), i.labels, i.metadata,
                        NormalizeInstance(i, t).endpoints, i.ttlSeconds)
    ensures |NormalizeInstance(i, t).endpoints| == |i.endpoints|
    ensures forall k :: 0 <= k < |i.endpoints| ==>
                          NormalizeInstance(i, t).endpoints[k] == NormalizeEndpoint(i.endpoints[k], t)
    ensures NormalizeQuery(q, t)
            == Query(if t.trim(q.namespace) == "" then t.namespace else t.trim(q.namespace), t.trim(q.service),
                     t.trim(q.zone), q.labels)
  {
  }

  /** Copies the endpoints and normalizes the copy in place. */
  method Normalize(i: Instance, t: Rules) returns (r: Instance)
    ensures r == NormalizeInstance(i, t)
  {
    var copied := new Endpoint[|i.endpoints|](k requires 0 <= k < |i.endpoints| => i.endpoints[k]);
    for k := 0 to copied.Length
      invariant forall j :: 0 <= j < k ==> copied[j] == NormalizeEndpoint(i.endpoints[j], t)
      invariant forall j :: k <= j < copied.Length ==> copied[j] == i.endpoints[j]
    {
      copied[k] := NormalizeEndpoint(copied[k], t);
    }
    r := i.(namespace := OrDefault(t.trim(i.namespace), t.namespace, t), service := t.trim(i.service),
            instanceId := t.trim(i.instanceId), zone := t.trim(i.zone), endpoints := copied[..]);
    assert r.endpoints == NormalizeEndpoints(i.endpoints, t);
  }

  // ---------- Selectors ----------

  /** What one selector demands: nothing, or a key, with a value if it has a "=". */
  datatype Demand = Nothing | Key(key: string, value: Option<string>)

  function DemandOf(selector: string, t: Rules): Demand {
    var c := Cut(t.trim(selector), '=');
    if t.trim(selector) == "" || t.trim(c.before) == "" then Nothing
    else Key(t.trim(c.before), if c.found then Some(t.trim(c.after)) else None)
  }

  /** A blank selector, or one whose key is blank, demands nothing; with a "=" it demands what is after the first one as
      the value of what is before it; without one, only that the label is there. */
  lemma DemandMeans(selector: string, key: string, value: string, t: Rules)
    ensures t.trim(selector) == "" ==> DemandOf(selector, t) == Nothing
    ensures t.trim(selector) == key + ['='] + value && '=' !in key ==>
              DemandOf(selector, t) == if t.trim(key) == "" then Nothing else Key(t.trim(key), Some(t.trim(value)))
    ensures '=' !in t.trim(selector) && t.trim(t.trim(selector)) == t.trim(selector) != "" ==>
              DemandOf(selector, t) == Key(t.trim(selector), None)
  {
    var s := t.trim(selector);
    if s == key + ['='] + value && '=' !in key {
      CutOfJoin(key, '=', value);
    } else if '=' !in s {
      CutOfJoin(s, '=', "");
    }
  }

  /** Nothing asks for nothing; a key must be there, with the value if one is demanded. */
  lemma MeetsMeans(labels: map<string, string>, key: string, value: string)
    ensures Meets(labels, Nothing)
    ensures Meets(labels, Key(key, None)) <==> key in labels
    ensures Meets(labels, Key(key, Some(value))) <==> key in labels && labels[key] == value
  {
  }

  predicate Meets(labels: map<string, string>, d: Demand) {
    match d
    case Nothing => true
    case Key(key, value) => key in labels && (value.Some? ==> labels[key] == value.value)
  }

  /** Every selector is met. */
  predicate LabelsMatch(labels: map<string, string>, selectors: seq<string>, t: Rules) {
    forall i :: 0 <= i < |selectors| ==> Meets(labels, DemandOf(selectors[i], t))
  }

  method LabelSelectorsMatch(labels: map<string, string>, selectors: seq<string>, t: Rules) returns (r: bool)
    ensures r == LabelsMatch(labels, selectors, t)
  {
    for i := 0 to |selectors|
      invariant forall j :: 0 <= j < i ==> Meets(labels, DemandOf(selectors[j], t))
    {
      var selector := t.trim(selectors[i]);
      if selector == "" { continue; }
      var cut := Cut(selector, '=');
      var key := t.trim(cut.before);
      if key == "" { continue; }
      if key !in labels { return false; }
      if cut.found && labels[key] != t.trim(cut.after) { return false; }
    }
    return true;
  }

  // ---------- The query filter ----------

  predicate Matches(i: Instance, q: Query, t: Rules) {
    (t.trim(q.zone) == "" || t.trim(i.zone) == t.trim(q.zone)) && LabelsMatch(i.labels, q.labels, t)
  }

  /** Keeps the matching instances, normalized. */
  function Keeping(q: Query, t: Rules): Instance -> Option<Instance> {
    (i: Instance) => if Matches(i, q, t) then Some(NormalizeInstance(i, t)) else None
  }

  function Filtered(instances: seq<Instance>, q: Query, t: Rules): seq<Instance> {
    Chosen(instances, Keeping(q, t))
  }

  /** An instance is kept exactly when the query names no zone or its zone, and its labels meet every selector. */
  lemma FilteredMeans(a: seq<Instance>, b: seq<Instance>, i: Instance, q: Query, t: Rules)
    ensures Filtered(a + b, q, t) == Filtered(a, q, t) + Filtered(b, q, t)
    ensures Filtered([i], q, t)
            == if (t.trim(q.zone) == "" || t.trim(i.zone) == t.trim(q.zone))
                  && forall k :: 0 <= k < |q.labels| ==> Meets(i.labels, DemandOf(q.labels[k], t))
               then [NormalizeInstance(i, t)] else []
  {
    ChosenConcat(a, b, Keeping(q, t));
    ChosenOne(i, Keeping(q, t));
  }

  method FilterInstances(instances: seq<Instance>, query: Query, t: Rules) returns (filtered: seq<Instance>)
    ensures filtered == Filtered(instances, query, t)
  {
    var q := NormalizeQuery(query, t);
    filtered := [];
    for k := 0 to |instances|
      invariant filtered == Chosen(instances[..k], Keeping(query, t))
    {
      ChosenNext(instances, k, Keeping(query, t));
      var instance := Normalize(instances[k], t);
      if q.zone != "" && instance.zone != q.zone { continue; }
      if |q.labels| > 0 {
        var matches := LabelSelectorsMatch(instance.labels, q.labels, t);
        if !matches { continue; }
      }
      filtered := filtered + [instance];
    }
    assert instances[..|instances|] == instances;
  }

  /** Filtering again, as a change event's instance is when its query was already applied, changes nothing. */
  lemma {:induction false} FilterIdempotent(instances: seq<Instance>, q: Query, t: Rules)
    requires Lawful(t)
    ensures Filtered(Filtered(instances, q, t), NormalizeQuery(q, t), t) == Filtered(instances, q, t)
  {
    if instances == [] {
    } else {
      var i, rest := instances[0], instances[1..];
      FilterIdempotent(rest, q, t);
      if Matches(i, q, t) {
        var n := NormalizeInstance(i, t);
        NormalizeIdempotent(Endpoint("", "", "", 0, "", 0), i, q, t);
        assert Matches(n, NormalizeQuery(q, t), t);
        ChosenConcat([n], Filtered(rest, q, t), Keeping(NormalizeQuery(q, t), t));
        assert Filtered(instances, q, t) == [n] + Filtered(rest, q, t);
        assert Chosen([n], Keeping(NormalizeQuery(q, t), t)) == [n];
      } else {
        assert Filtered(instances, q, t) == Filtered(rest, q, t);
      }
    }
  }
}
