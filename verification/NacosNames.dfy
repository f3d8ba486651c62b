/** The names the Nacos adapter uses: metadata keys, and service names that the server qualifies with a group. */
module NacosNames {
  import opened Instances
  import opened LabelText
  import opened Nacos
  import opened Regroup
  import opened Text

  const NAMES: Names := Names(
    "stellar_namespace", "stellar_zone", "stellar_instance_id", "stellar_endpoint_name",
    "stellar_protocol", "stellar_path", "stellar_weight", "stellar_label_")

  lemma NamesAreApart()
    ensures Apart(NAMES)
  {
    var p := "stellar_label_";
    assert |p| == 14;
    assert "stellar_namespace"[8] == 'n' && "stellar_zone"[8] == 'z' && "stellar_instance_id"[8] == 'i';
    assert "stellar_endpoint_name"[8] == 'e' && "stellar_protocol"[8] == 'p' && "stellar_path"[8] == 'p'
      && "stellar_weight"[8] == 'w';
    assert |"stellar_protocol"| == 16 && |"stellar_path"| == 12;
    forall k | k in Reserved(NAMES) ensures !HasPrefix(k, NAMES.labelPrefix) {
      assert k[8] != 'l' && p[8] == 'l';
    }
  }

  lemma NamesAre()
    ensures NAMES.namespace == "stellar_namespace" && NAMES.zone == "stellar_zone"
    ensures NAMES.instanceId == "stellar_instance_id" && NAMES.endpointName == "stellar_endpoint_name"
    ensures NAMES.protocol == "stellar_protocol" && NAMES.path == "stellar_path"
    ensures NAMES.weight == "stellar_weight" && NAMES.labelPrefix == "stellar_label_"
  {
  }

  const AT: char := '@'

  predicate PairAt(s: string, k: int) {
    0 <= k < |s| - 1 && s[k] == AT && s[k + 1] == AT
  }

  /** Where the last "@@" starts, or -1. */
  function LastPair(s: string): (r: int)
    ensures -1 <= r && (r >= 0 ==> PairAt(s, r))
    ensures forall k :: r < k ==> !PairAt(s, k)
    decreases |s|
  {
    if |s| < 2 then -1
    else if s[|s| - 2] == AT && s[|s| - 1] == AT then |s| - 2
    else
      var init := s[..|s| - 1];
      assert forall k :: k < |s| - 2 ==> (PairAt(init, k) <==> PairAt(s, k));
      LastPair(init)
  }

  /** What follows the last "@@", unless nothing does. */
  function Unqualified(s: string): string {
    if 0 <= LastPair(s) < |s| - 2 then s[LastPair(s) + 2..] else s
  }

  function NacosServiceName(serviceName: string): string {
    Unqualified(Trim(serviceName))
  }

  lemma PairsOfJoin(group: string, service: string, k: int)
    requires service != ""
    ensures PairAt(group + [AT, AT] + service, |group|)
    ensures |group| < k ==> (PairAt(group + [AT, AT] + service, k) <==> PairAt([AT] + service, k - |group| - 1))
  {
    var s := group + [AT, AT] + service;
    var tail := [AT] + service;
    assert s == group + [AT] + tail;
    assert forall i :: 0 <= i < |tail| ==> s[|group| + 1 + i] == tail[i];
  }

  /** A qualified name gives the service back if and only if no "@@" starts after the separator's first "@". */
  lemma UnqualifiedIff(group: string, service: string)
    requires service != ""
    ensures Unqualified(group + [AT, AT] + service) == service <==> LastPair([AT] + service) == -1
  {
    var s, tail := group + [AT, AT] + service, [AT] + service;
    var r := LastPair(s);
    PairsOfJoin(group, service, r);
    PairsOfJoin(group, service, LastPair(tail) + |group| + 1);
    if LastPair(tail) == -1 {
      assert r == |group|;
      assert s[r + 2..] == service;
    } else {
      assert r == LastPair(tail) + |group| + 1;
      assert |Unqualified(s)| != |service|;
    }
  }

  /** A name without "@@" is the service's; so is the whole of a name that ends in it. */
  lemma PlainNamesAreKept(name: string)
    requires Trim(name) == name
    requires (forall k :: !PairAt(name, k)) || (|name| >= 2 && PairAt(name, |name| - 2))
    ensures NacosServiceName(name) == name
  {
  }

  lemma QualifiedIsTrimmed(group: string, service: string, cut: set<char>)
    requires TrimBoth(service, cut) == service != "" && AT !in cut
    ensures TrimBoth(group + [AT, AT] + service, cut) == TrimLeft(group, cut) + [AT, AT] + service
  {
    var tail := [AT, AT] + service;
    var g := TrimLeft(group, cut);
    TrimsOfTrimmed(service, service, cut);
    TrimLeftBefore(group, tail, cut);
    Regrouped(group, service);
    Regrouped(g, service);
    JoinRight(g + [AT, AT], service, cut);
    TrimRightOfTrimmed(service, cut);
  }

  lemma Regrouped(group: string, service: string)
    ensures group + [AT, AT] + service == group + ([AT, AT] + service)
  {
  }

  lemma TrimRightOfTrimmed(s: string, cut: set<char>)
    requires TrimBoth(s, cut) == s
    ensures TrimRight(s, cut) == s
  {
    TrimmedIsFixed(s, cut);
  }

  lemma AtIsNoSpace()
    ensures AT !in SPACES
  {
  }

  /** So it does for the names the server reports of a service that is registered trimmed. */
  lemma ServiceNameRoundTripIff(group: string, service: string)
    requires Trim(service) == service != ""
    ensures NacosServiceName(group + [AT, AT] + service) == service <==> LastPair([AT] + service) == -1
  {
    AtIsNoSpace();
    QualifiedIsTrimmed(group, service, SPACES);
    UnqualifiedIff(TrimLeft(group, SPACES), service);
  }

  /** How the adapter reads the records it finds in a namespace. */
  function AdapterReading(namespace: string): Reading<Record> {
    ReadingOf(namespace, NAMES, RULES, NacosServiceName)
  }

  /** The adapter's own round trip, over the service names the server reports. */
  method DiscoverRegistered(xs: seq<Instance>, rs: seq<Record>, records: Instance -> seq<Record>, namespace: string)
    returns (found: seq<Instance>)
    requires Registrable(xs, records, NAMES, RULES, NacosServiceName)
    requires multiset(rs) == multiset(Flattened(xs, records))
    ensures |found| == |xs|
    ensures forall k :: 0 <= k < |xs| ==> GivesBack(found, xs[k], rs, AdapterReading(namespace))
    ensures rs == Flattened(xs, records) ==> forall k :: 0 <= k < |xs| ==> xs[k].(ttlSeconds := 0) in found
  {
    RulesAreLawful();
    NamesAreApart();
    found := Discover(xs, rs, records, namespace, NAMES, RULES, NacosServiceName);
  }
}
