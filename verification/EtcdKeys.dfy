/** The keys instances are stored under: one path per instance, selected by the path of its service. */
module EtcdKeys {
  import opened Instances
  import opened Text

  const SLASH_CHAR: char := '/'
  const DEFAULT_PREFIX := "/stellar/registry"

  function RegistryPrefix(prefix: string): string {
    var p := [SLASH_CHAR] + TrimBoth(Trim(prefix), SLASH);
    if p == [SLASH_CHAR] then DEFAULT_PREFIX else p
  }

  /** `namespace/service/`. */
  function Directory(namespace: string, service: string): string {
    namespace + [SLASH_CHAR] + service + [SLASH_CHAR]
  }

  function KeyUnder(root: string, namespace: string, service: string, id: string): string {
    root + [SLASH_CHAR] + (Directory(namespace, service) + id)
  }

  function PrefixUnder(root: string, namespace: string, service: string): string {
    root + [SLASH_CHAR] + Directory(namespace, service)
  }

  function InstanceKey(prefix: string, i: Instance, t: Rules): string {
    var n := NormalizeInstance(i, t);
    KeyUnder(RegistryPrefix(prefix), n.namespace, n.service, n.instanceId)
  }

  function ServicePrefix(prefix: string, q: Query, t: Rules): string {
    var n := NormalizeQuery(q, t);
    PrefixUnder(RegistryPrefix(prefix), n.namespace, n.service)
  }

  /** The configured prefix, trimmed, with one slash in front and none behind; the default one when nothing is left. */
  lemma RegistryPrefixMeans(prefix: string)
    ensures var inner := TrimBoth(Trim(prefix), {'/'});
            RegistryPrefix(prefix) == if inner == "" then "/stellar/registry" else "/" + inner
  {
  }

  /** The prefix and the names, with slashes between them, and one behind a service. */
  lemma KeyMeans(prefix: string, i: Instance, q: Query, t: Rules)
    ensures var root, n := RegistryPrefix(prefix), NormalizeInstance(i, t);
            InstanceKey(prefix, i, t) == root + "/" + n.namespace + "/" + n.service + "/" + n.instanceId
    ensures var root, n := RegistryPrefix(prefix), NormalizeQuery(q, t);
            ServicePrefix(prefix, q, t) == root + "/" + n.namespace + "/" + n.service + "/"
  {
    var n, m := NormalizeInstance(i, t), NormalizeQuery(q, t);
    Joined(RegistryPrefix(prefix), "/", n.namespace, n.service, n.instanceId);
    Joined(RegistryPrefix(prefix), "/", m.namespace, m.service, "");
  }

  lemma Joined(root: string, slash: string, ns: string, svc: string, id: string)
    ensures root + slash + (ns + slash + svc + slash + id) == root + slash + ns + slash + svc + slash + id
    ensures root + slash + (ns + slash + svc + slash) == root + slash + ns + slash + svc + slash
  {
  }

  predicate SlashFree(s: string) {
    SLASH_CHAR !in s
  }

  function Slashes(s: string): nat {
    if s == "" then 0 else (if s[0] == SLASH_CHAR then 1 else 0) + Slashes(s[1..])
  }

  lemma {:induction false} SlashesConcat(a: string, b: string)
    ensures Slashes(a + b) == Slashes(a) + Slashes(b)
  {
    if a == "" {
      assert a + b == b;
    } else {
      assert (a + b)[1..] == a[1..] + b;
      SlashesConcat(a[1..], b);
    }
  }

  lemma {:induction false} NoSlashes(s: string)
    ensures Slashes(s) == 0 <==> SlashFree(s)
  {
    if s == "" {
    } else {
      NoSlashes(s[1..]);
      assert s == [s[0]] + s[1..];
    }
  }

  lemma SlashesOfDirectory(namespace: string, service: string)
    ensures Slashes(Directory(namespace, service)) == Slashes(namespace) + Slashes(service) + 2
  {
    var slash := [SLASH_CHAR];
    assert Slashes(slash) == 1;
    SlashesConcat(namespace + slash + service, slash);
    SlashesConcat(namespace + slash, service);
    SlashesConcat(namespace, slash);
  }

  lemma RootsCancel(root: string, a: string, b: string)
    ensures HasPrefix(root + a, root + b) <==> HasPrefix(a, b)
  {
    if HasPrefix(a, b) {
      assert a == b + a[|b|..];
      assert root + a == root + b + a[|b|..];
    }
    if HasPrefix(root + a, root + b) {
      assert (root + a)[..|root + b|] == root + a[..|b|];
      assert (root + a)[|root|..|root + b|] == (root + b)[|root|..];
    }
  }

  lemma PrefixIsHead(s: string, p: string)
    requires HasPrefix(s, p)
    ensures s == p + s[|p|..]
  {
  }

  lemma HeadIsPrefix(p: string, rest: string)
    ensures HasPrefix(p + rest, p)
  {
  }

  lemma FirstSegment(a: string, x: string, b: string, y: string)
    requires SlashFree(a) && SlashFree(b) && a + [SLASH_CHAR] + x == b + [SLASH_CHAR] + y
    ensures a == b && x == y
  {
    FirstSeparatorIsUnique(a, x, b, y, SLASH_CHAR);
  }

  /** Without slashes in its names, an instance lies in its own service's directory and no other. */
  lemma OnlyItsOwnDirectory(ns: string, svc: string, id: string, ns': string, svc': string)
    requires SlashFree(ns) && SlashFree(svc) && SlashFree(id)
    ensures HasPrefix(Directory(ns, svc) + id, Directory(ns', svc')) <==> ns == ns' && svc == svc'
  {
    var key, dir := Directory(ns, svc) + id, Directory(ns', svc');
    if HasPrefix(key, dir) {
      PrefixIsHead(key, dir);
      var rest := key[|dir|..];
      SlashesConcat(dir, rest);
      SlashesConcat(Directory(ns, svc), id);
      SlashesOfDirectory(ns, svc);
      SlashesOfDirectory(ns', svc');
      NoSlashes(ns); NoSlashes(svc); NoSlashes(id);
      NoSlashes(ns'); NoSlashes(svc');
      assert key == ns + [SLASH_CHAR] + (svc + [SLASH_CHAR] + id);
      assert key == ns' + [SLASH_CHAR] + (svc' + [SLASH_CHAR] + rest);
      FirstSegment(ns, svc + [SLASH_CHAR] + id, ns', svc' + [SLASH_CHAR] + rest);
      FirstSegment(svc, id, svc', rest);
    } else if ns == ns' && svc == svc' {
      HeadIsPrefix(dir, id);
      assert false;
    }
  }

  lemma SlashInNamespace(a: string, b: string, svc: string, id: string)
    ensures Directory(a + [SLASH_CHAR] + b, svc) + id == Directory(a, b) + (svc + [SLASH_CHAR] + id)
  {
  }

  lemma SlashInService(ns: string, a: string, b: string, id: string)
    ensures Directory(ns, a + [SLASH_CHAR] + b) + id == Directory(ns, a) + (b + [SLASH_CHAR] + id)
  {
  }

  lemma SlashInId(ns: string, svc: string, a: string, b: string)
    ensures Directory(ns, svc) + (a + [SLASH_CHAR] + b) == Directory(ns, svc + [SLASH_CHAR] + a) + b
  {
  }

  /** A slash in one of the names puts the instance into another service's directory too. */
  lemma SlashesMislead(ns: string, svc: string, id: string) returns (ns': string, svc': string)
    requires !(SlashFree(ns) && SlashFree(svc) && SlashFree(id))
    ensures HasPrefix(Directory(ns, svc) + id, Directory(ns', svc')) && !(ns == ns' && svc == svc')
  {
    if !SlashFree(ns) {
      var c := Cut(ns, SLASH_CHAR);
      ns', svc' := c.before, c.after;
      SlashInNamespace(c.before, c.after, svc, id);
      HeadIsPrefix(Directory(ns', svc'), svc + [SLASH_CHAR] + id);
    } else if !SlashFree(svc) {
      var c := Cut(svc, SLASH_CHAR);
      ns', svc' := ns, c.before;
      SlashInService(ns, c.before, c.after, id);
      HeadIsPrefix(Directory(ns', svc'), c.after + [SLASH_CHAR] + id);
    } else {
      var c := Cut(id, SLASH_CHAR);
      ns', svc' := ns, svc + [SLASH_CHAR] + c.before;
      SlashInId(ns, svc, c.before, c.after);
      HeadIsPrefix(Directory(ns', svc'), c.after);
    }
  }

  ghost predicate SelectedByItsServiceOnly(root: string, ns: string, svc: string, id: string) {
    forall ns', svc' :: HasPrefix(KeyUnder(root, ns, svc, id), PrefixUnder(root, ns', svc'))
      <==> ns == ns' && svc == svc'
  }

  /** A prefix query selects exactly the instances of its service, whatever service is asked for, if and only if
      no name has a slash. */
  lemma SelectedByItsServiceOnlyIff(root: string, ns: string, svc: string, id: string)
    ensures SelectedByItsServiceOnly(root, ns, svc, id) <==> SlashFree(ns) && SlashFree(svc) && SlashFree(id)
  {
    var base, key := root + [SLASH_CHAR], Directory(ns, svc) + id;
    if SlashFree(ns) && SlashFree(svc) && SlashFree(id) {
      forall ns', svc'
        ensures HasPrefix(KeyUnder(root, ns, svc, id), PrefixUnder(root, ns', svc')) <==> ns == ns' && svc == svc'
      {
        RootsCancel(base, key, Directory(ns', svc'));
        OnlyItsOwnDirectory(ns, svc, id, ns', svc');
      }
    } else {
      var ns', svc' := SlashesMislead(ns, svc, id);
      RootsCancel(base, key, Directory(ns', svc'));
      assert HasPrefix(KeyUnder(root, ns, svc, id), PrefixUnder(root, ns', svc'));
    }
  }

  /** No other names have the same key. */
  ghost predicate KeyIsUnique(root: string, ns: string, svc: string, id: string) {
    forall ns', svc', id' ::
        KeyUnder(root, ns, svc, id) == KeyUnder(root, ns', svc', id') ==> ns == ns' && svc == svc' && id == id'
  }

  lemma RootCancels(root: string, a: string, b: string)
    ensures root + [SLASH_CHAR] + a == root + [SLASH_CHAR] + b <==> a == b
  {
    var base := root + [SLASH_CHAR];
    assert (base + a)[|base|..] == a && (base + b)[|base|..] == b;
  }

  /** A key tells the names it was made of apart from all others if and only if none of them has a slash. */
  lemma KeyIsUniqueIff(root: string, ns: string, svc: string, id: string)
    ensures KeyIsUnique(root, ns, svc, id) <==> SlashFree(ns) && SlashFree(svc) && SlashFree(id)
  {
    var key := Directory(ns, svc) + id;
    if SlashFree(ns) && SlashFree(svc) && SlashFree(id) {
      forall ns', svc', id' | KeyUnder(root, ns, svc, id) == KeyUnder(root, ns', svc', id')
        ensures ns == ns' && svc == svc' && id == id'
      {
        RootCancels(root, key, Directory(ns', svc') + id');
        HeadIsPrefix(Directory(ns', svc'), id');
        OnlyItsOwnDirectory(ns, svc, id, ns', svc');
        assert id == key[|Directory(ns, svc)|..];
      }
    } else {
      var ns', svc' := SlashesMislead(ns, svc, id);
      PrefixIsHead(key, Directory(ns', svc'));
      var id' := key[|Directory(ns', svc')|..];
      RootCancels(root, key, Directory(ns', svc') + id');
      assert KeyUnder(root, ns, svc, id) == KeyUnder(root, ns', svc', id');
    }
  }

  // ---------- The last segment ----------

  /** What follows the last slash. */
  function AfterLastSlash(s: string): (r: string)
    ensures SlashFree(r) && |r| <= |s| && s[|s| - |r|..] == r
    ensures |r| < |s| ==> s[|s| - |r| - 1] == SLASH_CHAR
  {
    if s == "" || s[|s| - 1] == SLASH_CHAR then ""
    else
      var init := s[..|s| - 1];
      var r := AfterLastSlash(init);
      assert init[|init| - |r|..] + [s[|s| - 1]] == s[|s| - |r| - 1..];
      r + [s[|s| - 1]]
  }

  function LastPathSegment(path: string): (r: string)
    ensures SlashFree(r)
  {
    AfterLastSlash(TrimBoth(path, SLASH))
  }

  lemma {:induction false} AfterLastSlashIs(head: string, id: string)
    requires SlashFree(id) && (head == "" || head[|head| - 1] == SLASH_CHAR)
    ensures AfterLastSlash(head + id) == id
    decreases |id|
  {
    if id == "" {
      assert head + id == head;
    } else {
      var init := id[..|id| - 1];
      assert id[|id| - 1] in id;
      AfterLastSlashIs(head, init);
      assert (head + id)[..|head + id| - 1] == head + init;
    }
  }

  lemma TrimLeftKeepsEnd(head: string)
    requires head != "" && head[|head| - 1] == SLASH_CHAR
    ensures var r := TrimLeft(head, SLASH); r == "" || r[|r| - 1] == SLASH_CHAR
  {
  }

  lemma KeyIsTrimmed(head: string, id: string)
    requires id != "" && SlashFree(id)
    ensures TrimBoth(head + id, SLASH) == TrimLeft(head, SLASH) + id
  {
    assert id[0] in id && id[|id| - 1] in id;
    TrimLeftBefore(head, id, SLASH);
    var s := TrimLeft(head, SLASH) + id;
    assert s[|s| - 1] == id[|id| - 1];
    NothingToTrim(s, SLASH);
  }

  lemma NothingToTrim(s: string, cut: set<char>)
    requires s != "" && s[|s| - 1] !in cut
    ensures TrimRight(s, cut) == s
  {
  }

  /** A deleted key's last segment is the instance's id if and only if the id has no slash. */
  lemma LastSegmentIsTheIdIff(root: string, ns: string, svc: string, id: string)
    requires id != ""
    ensures LastPathSegment(KeyUnder(root, ns, svc, id)) == id <==> SlashFree(id)
  {
    if SlashFree(id) {
      var head := root + [SLASH_CHAR] + Directory(ns, svc);
      assert KeyUnder(root, ns, svc, id) == head + id;
      KeyIsTrimmed(head, id);
      TrimLeftKeepsEnd(head);
      AfterLastSlashIs(TrimLeft(head, SLASH), id);
    }
  }

  /** For the adapter: an instance is under a query's prefix exactly when its normalized namespace and service are
      the query's, and the last segment of its key is its normalized id. */
  lemma QuerySelectsItsService(prefix: string, i: Instance, q: Query, t: Rules)
    requires var n := NormalizeInstance(i, t);
             SlashFree(n.namespace) && SlashFree(n.service) && SlashFree(n.instanceId) && n.instanceId != ""
    ensures HasPrefix(InstanceKey(prefix, i, t), ServicePrefix(prefix, q, t))
            <==> NormalizeInstance(i, t).namespace == NormalizeQuery(q, t).namespace
                 && NormalizeInstance(i, t).service == NormalizeQuery(q, t).service
    ensures LastPathSegment(InstanceKey(prefix, i, t)) == NormalizeInstance(i, t).instanceId
  {
    SelectOne(RegistryPrefix(prefix), NormalizeInstance(i, t), NormalizeQuery(q, t));
  }

  lemma SelectOne(root: string, n: Instance, q: Query)
    requires SlashFree(n.namespace) && SlashFree(n.service) && SlashFree(n.instanceId) && n.instanceId != ""
    ensures HasPrefix(KeyUnder(root, n.namespace, n.service, n.instanceId), PrefixUnder(root, q.namespace, q.service))
            <==> n.namespace == q.namespace && n.service == q.service
    ensures LastPathSegment(KeyUnder(root, n.namespace, n.service, n.instanceId)) == n.instanceId
  {
    SelectedByItsServiceOnlyIff(root, n.namespace, n.service, n.instanceId);
    LastSegmentIsTheIdIff(root, n.namespace, n.service, n.instanceId);
  }
}
