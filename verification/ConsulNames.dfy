/** The metadata keys the Consul adapter uses, and its round trip under the adapters' text rules. */
module ConsulNames {
  import opened Consul
  import opened Instances
  import opened LabelText
  import opened Labels

  const NAMES: Names := Names("stellar_namespace", "stellar_zone", "stellar_protocol", "stellar_path")

  lemma NamesAreApart()
    ensures Apart(NAMES)
  {
    assert "stellar_namespace"[8] == 'n' && "stellar_zone"[8] == 'z';
    assert "stellar_protocol"[9] == 'r' && "stellar_path"[9] == 'a';
  }

  lemma NamesAre()
    ensures NAMES.namespace == "stellar_namespace" && NAMES.zone == "stellar_zone"
    ensures NAMES.protocol == "stellar_protocol" && NAMES.path == "stellar_path"
  {
  }

  /** What the registry adapter promises of any normalized instance it registers. */
  lemma ConsulRoundTripIff(namespace: string, i: Instance, keys: seq<string>)
    requires i.endpoints != [] && NormalizeInstance(i, RULES) == i && Enumerates(keys, i.labels)
    ensures InstanceFrom(namespace, ServiceOf(i, keys, NAMES, RULES), NAMES, RULES) == i.(ttlSeconds := 0)
            <==> |i.endpoints| == 1 && i.endpoints[0].name == i.endpoints[0].protocol
                 && (forall k | k in i.labels :: CleanKey(k, RULES) && Kept(i.labels[k], RULES, TrimEnd) == i.labels[k])
                 && (forall k | k in Reserved(NAMES) :: k !in i.metadata)
  {
    RulesAreLawful();
    NamesAreApart();
    TextTagsReadBack();
    RoundTripIff(namespace, i, keys, NAMES, RULES, TrimEnd);
  }
}
