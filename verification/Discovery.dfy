/** Discovery endpoints: their normal form and what identifies them. */
module Discovery {
  import opened CacheModel
  import opened KeyedLists
  import opened Text

  datatype Endpoint = Endpoint(
    name: string, protocol: string, host: string, port: int, path: string, weight: int,
    instanceId: string, zone: string, labels: map<string, string>, metadata: map<string, string>)

  const DEFAULT_WEIGHT: int := 100

  function ValueOrDefault(value: string, fallback: string): string {
    if Trim(value) != "" then Trim(value) else fallback
  }

  function NormalizeProtocol(protocol: string): string {
    ToLower(ValueOrDefault(protocol, "http"))
  }

  function Normalize(e: Endpoint): Endpoint {
    e.(name := Trim(e.name), protocol := NormalizeProtocol(e.protocol), host := Trim(e.host), path := Trim(e.path),
       instanceId := Trim(e.instanceId), zone := Trim(e.zone),
       weight := if e.weight <= 0 then DEFAULT_WEIGHT else e.weight)
  }

  /** Texts are trimmed, a blank protocol is "http", others are in lower case, and a weight that is not positive
      is 100; nothing else changes. */
  lemma NormalizeMeans(e: Endpoint)
    ensures var n := Normalize(e);
            && n == Endpoint(Trim(e.name), n.protocol, Trim(e.host), e.port, Trim(e.path), n.weight,
                             Trim(e.instanceId), Trim(e.zone), e.labels, e.metadata)
            && n.protocol == (if Trim(e.protocol) == "" then "http" else ToLower(Trim(e.protocol)))
            && n.weight == if e.weight > 0 then e.weight else 100
  {
    HttpIsLower();
  }

  lemma HttpIsLower()
    ensures ToLower("http") == "http"
  {
  }

  lemma LowerOfTrimmed(v: string)
    requires Trimmed(v, SPACES)
    ensures Trim(ToLower(v)) == ToLower(v)
  {
    ToLowerKeepsTrimmed(v);
    TrimmedIsFixed(ToLower(v), SPACES);
  }

  lemma HttpIsTrimmed()
    ensures Trimmed("http", SPACES)
  {
  }

  lemma DefaultIsTrimmed(p: string, fallback: string)
    requires Trimmed(fallback, SPACES) && fallback != ""
    ensures Trimmed(ValueOrDefault(p, fallback), SPACES) && ValueOrDefault(p, fallback) != ""
  {
    TrimIdempotent(p);
  }

  lemma ProtocolIdempotent(p: string)
    ensures NormalizeProtocol(NormalizeProtocol(p)) == NormalizeProtocol(p)
  {
    var v := ValueOrDefault(p, "http");
    HttpIsTrimmed();
    DefaultIsTrimmed(p, "http");
    LowerOfTrimmed(v);
    var l := ToLower(v);
    assert l != "";
    assert ValueOrDefault(l, "http") == l;
    ToLowerIdempotent(v);
  }

  /** Normalizing is idempotent. */
  lemma NormalizeIdempotent(e: Endpoint)
    ensures Normalize(Normalize(e)) == Normalize(e)
  {
    TrimIdempotent(e.name);
    ProtocolIdempotent(e.protocol);
    TrimIdempotent(e.host);
    TrimIdempotent(e.path);
    TrimIdempotent(e.instanceId);
    TrimIdempotent(e.zone);
  }

  /** What tells endpoints apart: instance, name, protocol, host and port. */
  datatype Identity = Identity(instanceId: string, name: string, protocol: string, host: string, port: int)

  function IdentityOf(e: Endpoint): Identity {
    var n := Normalize(e);
    Identity(n.instanceId, n.name, n.protocol, n.host, n.port)
  }

  /** Two endpoints are the same one exactly when all five agree in their normal forms. */
  lemma SameIdentityIff(a: Endpoint, b: Endpoint)
    ensures IdentityOf(a) == IdentityOf(b) <==>
              && Trim(a.instanceId) == Trim(b.instanceId) && Trim(a.name) == Trim(b.name)
              && Normalize(a).protocol == Normalize(b).protocol && Trim(a.host) == Trim(b.host) && a.port == b.port
  {
  }

  /** How the cache of endpoints normalizes and identifies them. */
  const SCHEME: Scheme<Endpoint, Identity> := Scheme(Normalize, IdentityOf)

  lemma SchemeIsLawful()
    ensures Lawful(SCHEME)
  {
    forall e ensures SCHEME.normalize(SCHEME.normalize(e)) == SCHEME.normalize(e) {
      NormalizeIdempotent(e);
    }
  }

  /** After an upsert of `e`, nothing else has its identity. */
  ghost predicate LeavesNoOther(s: seq<Endpoint>, e: Endpoint) {
    forall y | y in Put(s, Normalize(e), IdentityOf) && IdentityOf(y) == IdentityOf(Normalize(e)) :: y == Normalize(e)
  }

  /** An upsert is sure to leave no stale copy of any endpoint exactly when the list has distinct identities:
      a full replacement does not deduplicate, and an upsert only replaces the first copy. */
  lemma UpsertReplacesAllIffDistinct(s: seq<Endpoint>)
    requires AllNormalized(s, SCHEME)
    ensures (forall e :: LeavesNoOther(s, e)) <==> Distinct(s, IdentityOf)
  {
    if Distinct(s, IdentityOf) {
      forall e ensures LeavesNoOther(s, e) {
        PutLeavesNoOther(s, Normalize(e), IdentityOf);
      }
    } else {
      var i, j :| 0 <= i < j < |s| && IdentityOf(s[i]) == IdentityOf(s[j]);
      var e := s[j].(weight := s[j].weight + 1);
      assert s[j] in s;
      assert Normalize(e) == e && IdentityOf(e) == IdentityOf(s[j]);
      PutMissesTheSecond(s, i, j, e, IdentityOf);
      assert s[j] in Put(s, Normalize(e), IdentityOf) && s[j] != Normalize(e);
      assert !LeavesNoOther(s, e);
    }
  }

  /** For instance, after a replacement with an endpoint twice, an upsert leaves a stale copy behind. */
  lemma ReplacedTwiceThenUpserted(c: Cache<Endpoint>, e: Endpoint, now: Time)
    ensures var newer := Normalize(e).(weight := Normalize(e).weight + 1);
            && IdentityOf(newer) == IdentityOf(e)
            && Apply(Apply(c, Replace([e, e], now), SCHEME), Upsert(newer, now), SCHEME).endpoints
               == [newer, Normalize(e)]
  {
    NormalizeIdempotent(e);
    var newer := Normalize(e).(weight := Normalize(e).weight + 1);
    assert Normalize(newer) == newer && IdentityOf(newer) == IdentityOf(e) == IdentityOf(Normalize(e));
    ReplacementKeepsDuplicates(c, e, newer, now, SCHEME);
  }
}
