/** Labels printed to text and read back: selectors of a discovery target, tags of a Consul service. */
module Labels {
  import opened Instances
  import opened Options
  import opened Selecting
  import opened Text

  const EQUALS: char := '='

  /** `key=value`, the bare key for a blank value, nothing for a blank key. */
  function Print(key: string, value: string, t: Rules): Option<string> {
    if t.trim(key) == "" then None
    else if t.trim(value) == "" then Some(t.trim(key))
    else Some(t.trim(key) + [EQUALS] + value)
  }

  /** What is printed of one label, in so many words. */
  lemma PrintMeans(key: string, value: string, t: Rules)
    ensures t.trim(key) == "" ==> Print(key, value, t) == None
    ensures t.trim(key) != "" && t.trim(value) == "" ==> Print(key, value, t) == Some(t.trim(key))
    ensures t.trim(key) != "" && t.trim(value) != "" ==> Print(key, value, t) == Some(t.trim(key) + "=" + value)
  {
  }

  function Printing(labels: map<string, string>, t: Rules): string -> Option<string> {
    (k: string) => if k in labels then Print(k, labels[k], t) else None
  }

  /** The labels printed in the order of `keys`. */
  function Printed(keys: seq<string>, labels: map<string, string>, t: Rules): seq<string> {
    Chosen(keys, Printing(labels, t))
  }

  /** `keys` is an order a map may be walked in. */
  ghost predicate Enumerates(keys: seq<string>, labels: map<string, string>) {
    (forall k :: k in keys <==> k in labels) && (forall i, j :: 0 <= i < j < |keys| ==> keys[i] != keys[j])
  }

  /** Printed in one of the orders the map may be walked in. */
  ghost predicate IsPrinted(printed: seq<string>, labels: map<string, string>, t: Rules) {
    exists keys :: Enumerates(keys, labels) && printed == Printed(keys, labels, t)
  }

  lemma PrintedNext(keys: seq<string>, key: string, labels: map<string, string>, t: Rules)
    requires key in labels
    ensures Printed(keys + [key], labels, t) == Printed(keys, labels, t) + Shown(Print(key, labels[key], t))
  {
    ChosenConcat(keys, [key], Printing(labels, t));
  }

  /** Walks the map in any order. */
  method PrintLabels(labels: map<string, string>, t: Rules) returns (printed: seq<string>)
    ensures IsPrinted(printed, labels, t)
  {
    var left := labels.Keys;
    printed := [];
    ghost var keys := [];
    while left != {}
      invariant left <= labels.Keys
      invariant forall k :: k in keys <==> k in labels && k !in left
      invariant forall i, j :: 0 <= i < j < |keys| ==> keys[i] != keys[j]
      invariant printed == Printed(keys, labels, t)
    {
      var key :| key in left;
      left := left - {key};
      PrintedNext(keys, key, labels, t);
      keys := keys + [key];
      if t.trim(key) == "" { continue; }
      if t.trim(labels[key]) == "" {
        printed := printed + [t.trim(key)];
        continue;
      }
      printed := printed + [t.trim(key) + [EQUALS] + labels[key]];
    }
    assert Enumerates(keys, labels);
  }

  // ---------- Selectors ----------

  /** What a configured label asks of an instance: its key, and its value unless that is blank. */
  predicate Asked(actual: map<string, string>, key: string, value: string, t: Rules) {
    t.trim(key) == "" ||
    (t.trim(key) in actual && (t.trim(value) == "" || actual[t.trim(key)] == t.trim(value)))
  }

  predicate AllAsked(actual: map<string, string>, labels: map<string, string>, t: Rules) {
    forall k | k in labels :: Asked(actual, k, labels[k], t)
  }

  /** No non-blank key has a "=". */
  predicate Printable(labels: map<string, string>, t: Rules) {
    forall k | k in labels :: EQUALS !in t.trim(k)
  }

  /** How the text rules read back what is printed. */
  ghost predicate ReadsBack(t: Rules) {
    && t.trim("") == ""
    && (forall s :: EQUALS !in s ==> EQUALS !in t.trim(s))
    && (forall s :: t.trim(t.trim(s)) == t.trim(s))
    && (forall k, v :: t.trim(k) != "" && EQUALS !in t.trim(k) ==>
          DemandOf(Print(k, v, t).value, t) == Key(t.trim(k), if t.trim(v) == "" then None else Some(t.trim(v))))
  }

  lemma SelectorMeansAsked(actual: map<string, string>, k: string, v: string, t: Rules)
    requires ReadsBack(t) && t.trim(k) != "" && EQUALS !in t.trim(k)
    ensures Meets(actual, DemandOf(Print(k, v, t).value, t)) <==> Asked(actual, k, v, t)
  {
  }

  /** The selectors of a target match exactly the instances with every key and every non-blank value. */
  lemma SelectorsMeanLabels(actual: map<string, string>, labels: map<string, string>, keys: seq<string>, t: Rules)
    requires ReadsBack(t) && Enumerates(keys, labels) && Printable(labels, t)
    ensures LabelsMatch(actual, Printed(keys, labels, t), t) <==> AllAsked(actual, labels, t)
  {
    var ps := Printed(keys, labels, t);
    ChosenMembers(keys, Printing(labels, t));
    if AllAsked(actual, labels, t) {
      forall i | 0 <= i < |ps| ensures Meets(actual, DemandOf(ps[i], t)) {
        assert ps[i] in ps;
        var k :| k in keys && Printing(labels, t)(k) == Some(ps[i]);
        SelectorMeansAsked(actual, k, labels[k], t);
      }
    }
    if LabelsMatch(actual, ps, t) {
      forall k | k in labels ensures Asked(actual, k, labels[k], t) {
        if t.trim(k) != "" {
          assert k in keys && Printing(labels, t)(k).Some?;
          var i :| 0 <= i < |ps| && ps[i] == Print(k, labels[k], t).value;
          assert Meets(actual, DemandOf(ps[i], t));
          SelectorMeansAsked(actual, k, labels[k], t);
        }
      }
    }
  }

  // ---------- Demands that can be met together ----------

  predicate Contradict(d: Demand, e: Demand) {
    d.Key? && e.Key? && d.key == e.key && d.value.Some? && e.value.Some? && d.value != e.value
  }

  /** Two demands want different values of one key. */
  ghost predicate Clash(ds: seq<Demand>) {
    exists i, j :: 0 <= i < |ds| && 0 <= j < |ds| && Contradict(ds[i], ds[j])
  }

  ghost predicate MeetsAll(labels: map<string, string>, ds: seq<Demand>) {
    forall i :: 0 <= i < |ds| ==> Meets(labels, ds[i])
  }

  /** Labels with exactly what is demanded. */
  function Fulfil(ds: seq<Demand>): map<string, string> {
    if ds == [] then map[]
    else
      var before := Fulfil(ds[..|ds| - 1]);
      match ds[|ds| - 1]
      case Nothing => before
      case Key(key, Some(v)) => before[key := v]
      case Key(key, None) => if key in before then before else before[key := ""]
  }

  lemma {:induction false} FulfilMeetsAll(ds: seq<Demand>)
    requires !Clash(ds)
    ensures MeetsAll(Fulfil(ds), ds)
  {
    if ds == [] {
    } else {
      var n := |ds| - 1;
      assert forall i, j :: 0 <= i < n && 0 <= j < n ==> Contradict(ds[..n][i], ds[..n][j]) == Contradict(ds[i], ds[j]);
      FulfilMeetsAll(ds[..n]);
      forall i | 0 <= i < n ensures Meets(Fulfil(ds), ds[i]) {
        assert Meets(Fulfil(ds[..n]), ds[..n][i]);
        assert !Contradict(ds[i], ds[n]);
      }
    }
  }

  /** Some labels meet all demands if and only if no two clash. */
  lemma ClashIff(ds: seq<Demand>)
    ensures (forall labels :: !MeetsAll(labels, ds)) <==> Clash(ds)
  {
    if !Clash(ds) {
      FulfilMeetsAll(ds);
    }
  }

  /** What a configured label asks, as a demand. */
  function Wanted(key: string, value: string, t: Rules): Demand {
    if t.trim(key) == "" then Nothing
    else Key(t.trim(key), if t.trim(value) == "" then None else Some(t.trim(value)))
  }

  function AllWanted(keys: seq<string>, labels: map<string, string>, t: Rules): (r: seq<Demand>)
    requires forall k | k in keys :: k in labels
    ensures |r| == |keys| && forall i :: 0 <= i < |keys| ==> r[i] == Wanted(keys[i], labels[keys[i]], t)
  {
    seq(|keys|, i requires 0 <= i < |keys| => Wanted(keys[i], labels[keys[i]], t))
  }

  function DemandsOf(selectors: seq<string>, t: Rules): (r: seq<Demand>)
    ensures |r| == |selectors| && forall i :: 0 <= i < |selectors| ==> r[i] == DemandOf(selectors[i], t)
  {
    seq(|selectors|, i requires 0 <= i < |selectors| => DemandOf(selectors[i], t))
  }

  lemma AskedIsWanted(actual: map<string, string>, labels: map<string, string>, keys: seq<string>, t: Rules)
    requires Enumerates(keys, labels)
    ensures AllAsked(actual, labels, t) <==> MeetsAll(actual, AllWanted(keys, labels, t))
  {
    var ws := AllWanted(keys, labels, t);
    if MeetsAll(actual, ws) {
      forall k | k in labels ensures Asked(actual, k, labels[k], t) {
        var i :| 0 <= i < |keys| && keys[i] == k;
        assert Meets(actual, ws[i]);
      }
    }
    if AllAsked(actual, labels, t) {
      forall i | 0 <= i < |ws| ensures Meets(actual, ws[i]) {
        assert keys[i] in keys;
        assert Asked(actual, keys[i], labels[keys[i]], t);
      }
    }
  }

  lemma OtherLabelsDoNotMatter(actual: map<string, string>, key: string, selectors: seq<string>, t: Rules)
    requires ReadsBack(t) && EQUALS in key
    ensures LabelsMatch(actual, selectors, t) <==> LabelsMatch(actual - {key}, selectors, t)
  {
    forall i | 0 <= i < |selectors|
      ensures Meets(actual, DemandOf(selectors[i], t)) <==> Meets(actual - {key}, DemandOf(selectors[i], t))
    {
      var d := DemandOf(selectors[i], t);
      assert d.Key? ==> EQUALS !in d.key;
    }
  }

  /** Printed selectors and labels ask the same of every instance. */
  ghost predicate SelectorsMean(labels: map<string, string>, keys: seq<string>, t: Rules) {
    forall actual :: LabelsMatch(actual, Printed(keys, labels, t), t) <==> AllAsked(actual, labels, t)
  }

  /** Labels that some instance can have mean their selectors only without "=" in a key. */
  lemma EqualsInAKeyMisleads(
    labels: map<string, string>, keys: seq<string>, k: string, ideal: map<string, string>, t: Rules)
    requires ReadsBack(t) && Enumerates(keys, labels) && AllAsked(ideal, labels, t)
    requires k in labels && EQUALS in t.trim(k)
    ensures !SelectorsMean(labels, keys, t)
  {
    var less := ideal - {t.trim(k)};
    OtherLabelsDoNotMatter(ideal, t.trim(k), Printed(keys, labels, t), t);
    assert Asked(ideal, k, labels[k], t) && !Asked(less, k, labels[k], t);
    assert !AllAsked(less, labels, t);
  }

  /** No instance has clashing labels; the selectors say so if and only if they clash too. */
  lemma ClashingSelectorsIff(labels: map<string, string>, keys: seq<string>, t: Rules)
    requires Enumerates(keys, labels) && Clash(AllWanted(keys, labels, t))
    ensures SelectorsMean(labels, keys, t) <==> Clash(DemandsOf(Printed(keys, labels, t), t))
  {
    var ps := Printed(keys, labels, t);
    ClashIff(AllWanted(keys, labels, t));
    ClashIff(DemandsOf(ps, t));
    forall actual
      ensures !AllAsked(actual, labels, t) && LabelsMatch(actual, ps, t) == MeetsAll(actual, DemandsOf(ps, t))
    {
      AskedIsWanted(actual, labels, keys, t);
    }
  }

  /** The selectors mean the labels, for all instances, if and only if no key has a "="; labels that want two values
      of one key, which no instance has, if and only if the selectors do so too. */
  lemma SelectorsMeanLabelsIff(labels: map<string, string>, keys: seq<string>, t: Rules)
    requires ReadsBack(t) && Enumerates(keys, labels)
    ensures SelectorsMean(labels, keys, t) <==>
              if Clash(AllWanted(keys, labels, t)) then Clash(DemandsOf(Printed(keys, labels, t), t))
                else Printable(labels, t)
  {
    if Clash(AllWanted(keys, labels, t)) {
      ClashingSelectorsIff(labels, keys, t);
    } else if Printable(labels, t) {
      forall actual ensures LabelsMatch(actual, Printed(keys, labels, t), t) <==> AllAsked(actual, labels, t) {
        SelectorsMeanLabels(actual, labels, keys, t);
      }
    } else {
      var k :| k in labels && EQUALS in t.trim(k);
      var ideal := Fulfil(AllWanted(keys, labels, t));
      FulfilMeetsAll(AllWanted(keys, labels, t));
      AskedIsWanted(ideal, labels, keys, t);
      EqualsInAKeyMisleads(labels, keys, k, ideal, t);
    }
  }

  // ---------- Consul tags ----------

  datatype Label = Label(key: string, value: string)

  /** A tag without "=" is a label "true". */
  function ReadTag(tag: string, t: Rules): Option<Label> {
    var s := t.trim(tag);
    if s == "" then None
    else
      var c := Cut(s, EQUALS);
      Some(if c.found then Label(c.before, c.after) else Label(s, "true"))
  }

  /** Later tags win. */
  function LabelsOf(tags: seq<string>, t: Rules): map<string, string> {
    if tags == [] then map[] else With(LabelsOf(tags[..|tags| - 1], t), ReadTag(tags[|tags| - 1], t))
  }

  function With(labels: map<string, string>, l: Option<Label>): map<string, string> {
    if l.None? then labels else labels[l.value.key := l.value.value]
  }

  /** One more tag: a blank one says nothing; one with a "=" sets the label before the first one to what is after it;
      any other sets the label to "true". What earlier tags said of other labels stays. */
  lemma LabelsOfMeans(tags: seq<string>, tag: string, key: string, value: string, t: Rules)
    ensures LabelsOf([], t) == map[]
    ensures t.trim(tag) == "" ==> LabelsOf(tags + [tag], t) == LabelsOf(tags, t)
    ensures t.trim(tag) == key + "=" + value && '=' !in key ==>
              LabelsOf(tags + [tag], t) == LabelsOf(tags, t)[key := value]
    ensures t.trim(tag) != "" && '=' !in t.trim(tag) ==>
              LabelsOf(tags + [tag], t) == LabelsOf(tags, t)[t.trim(tag) := "true"]
  {
    assert (tags + [tag])[..|tags|] == tags;
    TagMeans(tag, key, value, t);
  }

  lemma TagMeans(tag: string, key: string, value: string, t: Rules)
    ensures t.trim(tag) == "" ==> ReadTag(tag, t) == None
    ensures t.trim(tag) == key + "=" + value && '=' !in key ==> ReadTag(tag, t) == Some(Label(key, value))
    ensures t.trim(tag) != "" && '=' !in t.trim(tag) ==> ReadTag(tag, t) == Some(Label(t.trim(tag), "true"))
  {
    var s := t.trim(tag);
    if s == key + "=" + value && '=' !in key {
      CutOfJoin(key, EQUALS, value);
    } else if '=' !in s {
      CutOfJoin(s, EQUALS, "");
    }
  }

  method LabelsFromConsulTags(tags: seq<string>, t: Rules) returns (labels: map<string, string>)
    ensures labels == LabelsOf(tags, t)
  {
    labels := map[];
    for i := 0 to |tags|
      invariant labels == LabelsOf(tags[..i], t)
    {
      assert tags[..i + 1][..i] == tags[..i];
      var tag := t.trim(tags[i]);
      if tag == "" { continue; }
      var cut := Cut(tag, EQUALS);
      if cut.found {
        labels := labels[cut.before := cut.after];
        continue;
      }
      labels := labels[tag := "true"];
    }
    assert tags[..|tags|] == tags;
  }

  /** A key that survives: not blank, trimmed, without "=". */
  predicate CleanKey(k: string, t: Rules) {
    k != "" && t.trim(k) == k && EQUALS !in k
  }

  /** What becomes of a value. */
  function Kept(v: string, t: Rules, trimEnd: string -> string): string {
    if t.trim(v) == "" then "true" else trimEnd(v)
  }

  /** How tags read back: a key as it was exactly when it is clean, else a shorter one. */
  ghost predicate TagsReadBack(t: Rules, trimEnd: string -> string) {
    forall k, v | t.trim(k) != "" :: ReadBack(k, v, ReadTag(Print(k, v, t).value, t), t, trimEnd)
  }

  ghost predicate ReadBack(k: string, v: string, l: Option<Label>, t: Rules, trimEnd: string -> string) {
    l.Some? && |l.value.key| <= |k|
    && (if CleanKey(k, t) then l.value == Label(k, Kept(v, t, trimEnd)) else |l.value.key| < |k|)
  }

  /** What the tag of a key reads back as. */
  function Back(k: string, labels: map<string, string>, t: Rules): Option<Label> {
    if k in labels && Print(k, labels[k], t).Some? then ReadTag(Print(k, labels[k], t).value, t) else None
  }

  lemma LabelsNext(keys: seq<string>, n: nat, labels: map<string, string>, t: Rules)
    requires n < |keys|
    ensures LabelsOf(Printed(keys[..n + 1], labels, t), t)
            == With(LabelsOf(Printed(keys[..n], labels, t), t), Back(keys[n], labels, t))
  {
    ChosenNext(keys, n, Printing(labels, t));
    var ps, p := Printed(keys[..n], labels, t), Printing(labels, t)(keys[n]);
    if p.Some? {
      assert (ps + [p.value])[..|ps|] == ps;
    } else {
      assert ps + [] == ps;
    }
  }

  function Backs(labels: map<string, string>, t: Rules): string -> Option<Label> {
    (k: string) => Back(k, labels, t)
  }

  function Keeps(labels: map<string, string>, t: Rules, trimEnd: string -> string): string -> string {
    (k: string) => if k in labels then Kept(labels[k], t, trimEnd) else ""
  }

  /** The labels as they come back if every key is clean. */
  function KeptLabels(labels: map<string, string>, kept: string -> string): map<string, string> {
    map k | k in labels :: kept(k)
  }

  ghost predicate SurvivesAsKept(k: string, labels: map<string, string>, t: Rules, trimEnd: string -> string) {
    Backs(labels, t)(k) == Some(Label(k, Keeps(labels, t, trimEnd)(k)))
  }

  lemma CleanKeyReadsBack(k: string, labels: map<string, string>, t: Rules, trimEnd: string -> string)
    requires TagsReadBack(t, trimEnd) && k in labels && CleanKey(k, t)
    ensures SurvivesAsKept(k, labels, t, trimEnd)
  {
    assert ReadBack(k, labels[k], ReadTag(Print(k, labels[k], t).value, t), t, trimEnd);
  }

  /** The map built from what each key reads back as. */
  function Gathered(keys: seq<string>, back: string -> Option<Label>): map<string, string> {
    if keys == [] then map[] else With(Gathered(keys[..|keys| - 1], back), back(keys[|keys| - 1]))
  }

  lemma {:induction false} LabelsAreGathered(keys: seq<string>, labels: map<string, string>, t: Rules)
    ensures LabelsOf(Printed(keys, labels, t), t) == Gathered(keys, Backs(labels, t))
  {
    if keys == [] {
    } else {
      var n := |keys| - 1;
      LabelsAreGathered(keys[..n], labels, t);
      LabelsNext(keys, n, labels, t);
      assert keys[..n + 1] == keys;
    }
  }

  /** Where each key reads back as itself, the map has the keys and what is kept of each. */
  lemma {:induction false} GatheredIs(keys: seq<string>, back: string -> Option<Label>, kept: string -> string)
    requires forall k | k in keys :: back(k) == Some(Label(k, kept(k)))
    ensures forall k :: k in Gathered(keys, back) <==> k in keys
    ensures forall k | k in keys :: Gathered(keys, back)[k] == kept(k)
  {
    if keys == [] {
    } else {
      var n := |keys| - 1;
      assert keys == keys[..n] + [keys[n]];
      GatheredIs(keys[..n], back, kept);
    }
  }

  ghost predicate CameFrom(k: string, keys: seq<string>, labels: map<string, string>, t: Rules) {
    exists j :: j in keys && IsKeyOf(k, j, labels, t)
  }

  predicate IsKeyOf(k: string, j: string, labels: map<string, string>, t: Rules) {
    Back(j, labels, t).Some? && Back(j, labels, t).value.key == k
  }

  lemma {:induction false} KeysComeFromKeys(keys: seq<string>, n: nat, labels: map<string, string>, t: Rules, k: string)
    requires n <= |keys| && k in LabelsOf(Printed(keys[..n], labels, t), t)
    ensures CameFrom(k, keys, labels, t)
  {
    if n == 0 {
    } else {
      LabelsNext(keys, n - 1, labels, t);
      if k in LabelsOf(Printed(keys[..n - 1], labels, t), t) {
        KeysComeFromKeys(keys, n - 1, labels, t, k);
      } else {
        assert keys[n - 1] in keys;
        assert IsKeyOf(k, keys[n - 1], labels, t);
      }
    }
  }

  /** If the tags give back the labels, then the keys of a length down from `bound` are clean: a key that is not
      reads back shorter, and nothing reads back as it but a longer one. */
  lemma {:induction false} LongKeysAreClean(
    keys: seq<string>, labels: map<string, string>, bound: nat, n: nat, t: Rules, trimEnd: string -> string)
    requires TagsReadBack(t, trimEnd) && Enumerates(keys, labels) && n <= bound
    requires forall k | k in labels :: |k| < bound
    requires LabelsOf(Printed(keys, labels, t), t) == labels
    ensures forall k | k in labels && |k| >= bound - n :: CleanKey(k, t)
  {
    if n == 0 {
    } else {
      LongKeysAreClean(keys, labels, bound, n - 1, t, trimEnd);
      forall k | k in labels && |k| >= bound - n ensures CleanKey(k, t) {
        assert keys[..|keys|] == keys;
        KeysComeFromKeys(keys, |keys|, labels, t, k);
        var j :| j in keys && IsKeyOf(k, j, labels, t);
        assert ReadBack(j, labels[j], ReadTag(Print(j, labels[j], t).value, t), t, trimEnd);
      }
    }
  }

  function Longest(keys: seq<string>): (r: nat)
    ensures forall k | k in keys :: |k| <= r
  {
    if keys == [] then 0 else var r := Longest(keys[1..]); if |keys[0]| > r then |keys[0]| else r
  }

  /** Labels survive the tags, in whatever order the map is walked, if and only if every key is clean and every value
      is not blank and has nothing to trim at its end. */
  lemma TagsRoundTripIff(keys: seq<string>, labels: map<string, string>, t: Rules, trimEnd: string -> string)
    requires TagsReadBack(t, trimEnd) && Enumerates(keys, labels)
    ensures LabelsOf(Printed(keys, labels, t), t) == labels
            <==> forall k | k in labels :: CleanKey(k, t) && Kept(labels[k], t, trimEnd) == labels[k]
  {
    assert keys[..|keys|] == keys;
    var back := LabelsOf(Printed(keys, labels, t), t);
    if back == labels {
      var bound := Longest(keys) + 1;
      LongKeysAreClean(keys, labels, bound, bound, t, trimEnd);
      assert forall k | k in labels :: |k| >= 0;
    }
    if forall k | k in labels :: CleanKey(k, t) {
      ReadBackWhole(keys, labels, t, trimEnd);
    }
  }

  lemma GatheredWhole(
    keys: seq<string>, labels: map<string, string>, back: string -> Option<Label>, kept: string -> string)
    requires Enumerates(keys, labels) && forall k | k in keys :: back(k) == Some(Label(k, kept(k)))
    ensures Gathered(keys, back) == KeptLabels(labels, kept)
  {
    GatheredIs(keys, back, kept);
  }

  /** Clean labels read back as they were, but for blank values and what is trimmed at the end of the others. */
  lemma ReadBackWhole(keys: seq<string>, labels: map<string, string>, t: Rules, trimEnd: string -> string)
    requires TagsReadBack(t, trimEnd) && Enumerates(keys, labels)
    requires forall k | k in labels :: CleanKey(k, t)
    ensures LabelsOf(Printed(keys, labels, t), t) == KeptLabels(labels, Keeps(labels, t, trimEnd))
  {
    var back, kept := Backs(labels, t), Keeps(labels, t, trimEnd);
    LabelsAreGathered(keys, labels, t);
    forall k | k in keys ensures back(k) == Some(Label(k, kept(k))) {
      CleanKeyReadsBack(k, labels, t, trimEnd);
      assert SurvivesAsKept(k, labels, t, trimEnd);
    }
    GatheredWhole(keys, labels, back, kept);
  }
}
