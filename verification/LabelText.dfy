/** The text rules of the adapters read printed labels back as the label theory asks. */
module LabelText {
  import opened Instances
  import opened Labels
  import opened Options
  import opened Text

  function TrimEnd(s: string): string {
    TrimRight(s, SPACES)
  }

  lemma JoinLeft(k: string, rest: string, cut: set<char>)
    requires TrimLeft(k, cut) == k != ""
    ensures TrimLeft(k + rest, cut) == k + rest
  {
    TrimLeftConcat(k, rest, cut);
  }

  lemma JoinRight(head: string, v: string, cut: set<char>)
    requires TrimRight(v, cut) != ""
    ensures TrimRight(head + v, cut) == head + TrimRight(v, cut)
  {
    TrimRightConcat(head, v, cut);
  }

  lemma TrimsOfTrimmed(k: string, v: string, cut: set<char>)
    requires TrimBoth(k, cut) == k && TrimBoth(v, cut) != ""
    ensures TrimLeft(k, cut) == k && TrimRight(v, cut) != ""
  {
    TrimmedIsFixed(k, cut);
    TrimsCommute(v, cut);
  }

  lemma JoinIsTrimmed(k: string, v: string, cut: set<char>)
    requires TrimBoth(k, cut) == k != "" && TrimBoth(v, cut) != ""
    ensures TrimBoth(k + [EQUALS] + v, cut) == k + [EQUALS] + TrimRight(v, cut)
  {
    TrimsOfTrimmed(k, v, cut);
    JoinStartsTrimmed(k, [EQUALS], v, cut);
    JoinRight(k + [EQUALS], v, cut);
  }

  lemma JoinStartsTrimmed(k: string, between: string, v: string, cut: set<char>)
    requires TrimLeft(k, cut) == k != ""
    ensures TrimLeft(k + between + v, cut) == k + between + v
  {
    assert k + between + v == k + (between + v);
    JoinLeft(k, between + v, cut);
  }

  /** A printed pair is trimmed at the end of its value only. */
  lemma PairIsTrimmed(k: string, v: string)
    requires Trim(k) == k != "" && Trim(v) != ""
    ensures Trim(k + [EQUALS] + v) == k + [EQUALS] + TrimEnd(v)
  {
    JoinIsTrimmed(k, v, SPACES);
  }

  lemma TrimOfTrimEnd(v: string)
    ensures Trim(TrimEnd(v)) == Trim(v)
  {
    TrimsCommute(v, SPACES);
    TrimIdempotent(v);
    TrimsCommute(TrimEnd(v), SPACES);
    TrimmedIsFixed(Trim(v), SPACES);
    TrimsCommute(Trim(v), SPACES);
    TrimRightTwice(TrimLeft(v, SPACES));
  }

  lemma TrimRightTwice(s: string)
    ensures TrimRight(TrimRight(s, SPACES), SPACES) == TrimRight(s, SPACES)
  {
  }

  lemma SuffixHasNoMore(s: string, k: nat, c: char)
    requires k <= |s| && c !in s
    ensures c !in s[k..] && c !in s[..k]
  {
  }

  lemma TrimBothOnlyRemoves(s: string, cut: set<char>, c: char)
    requires c !in s
    ensures c !in TrimBoth(s, cut)
  {
    var l := TrimLeft(s, cut);
    SuffixHasNoMore(s, |s| - |l|, c);
    SuffixHasNoMore(l, |TrimRight(l, cut)|, c);
  }

  lemma TrimOnlyRemoves(s: string, c: char)
    requires c !in s
    ensures c !in Trim(s)
  {
    TrimBothOnlyRemoves(s, SPACES, c);
  }

  /** The first "=" of a joined text is in the head if the head has one. */
  lemma CutInsideTheHead(head: string, tail: string)
    requires EQUALS in head
    ensures var c := Cut(head + tail, EQUALS); c.found && |c.before| < |head|
  {
    var c := Cut(head + tail, EQUALS);
    var j :| 0 <= j < |head| && head[j] == EQUALS;
    var text := head + tail;
    assert text[j] == EQUALS;
    assert forall i :: 0 <= i < |c.before| ==> text[i] == c.before[i] != EQUALS;
  }

  lemma DemandReadsBack(k: string, v: string)
    requires Trim(k) != "" && EQUALS !in Trim(k)
    ensures DemandOf(Print(k, v, RULES).value, RULES) == Key(Trim(k), if Trim(v) == "" then None else Some(Trim(v)))
  {
    var key := Trim(k);
    TrimIdempotent(k);
    if Trim(v) == "" {
      CutOfJoin(key, EQUALS, "");
    } else {
      PairIsTrimmed(key, v);
      CutOfJoin(key, EQUALS, TrimEnd(v));
      TrimOfTrimEnd(v);
    }
  }

  lemma TextReadsBack()
    ensures ReadsBack(RULES)
  {
    RulesAreLawful();
    forall s | EQUALS !in s ensures EQUALS !in RULES.trim(s) {
      TrimOnlyRemoves(s, EQUALS);
    }
    forall k, v | RULES.trim(k) != "" && EQUALS !in RULES.trim(k)
      ensures DemandOf(Print(k, v, RULES).value, RULES)
              == Key(RULES.trim(k), if RULES.trim(v) == "" then None else Some(RULES.trim(v)))
    {
      DemandReadsBack(k, v);
    }
  }

  lemma TrimIsNoLonger(s: string)
    ensures |Trim(s)| <= |s| && (|Trim(s)| == |s| ==> Trim(s) == s)
  {
  }

  function Tail(value: Option<string>): string {
    if value.Some? then [EQUALS] + value.value else ""
  }

  lemma CutIs(s: string, head: string, tail: string, c: char)
    requires c !in head && s == head + [c] + tail
    ensures Cut(s, c) == CutResult(head, tail, true)
  {
    CutOfJoin(head, c, tail);
  }

  lemma CutIsWhole(s: string, c: char)
    requires c !in s
    ensures Cut(s, c) == CutResult(s, "", false)
  {
    CutOfJoin(s, c, "");
  }

  lemma CutOfTail(text: string, key: string, value: Option<string>)
    requires EQUALS !in key && text == key + Tail(value)
    ensures Cut(text, EQUALS) == CutResult(key, if value.Some? then value.value else "", value.Some?)
  {
    if value.Some? {
      CutIs(text, key, value.value, EQUALS);
    } else {
      assert text == key;
      CutIsWhole(text, EQUALS);
    }
  }

  /** Reading a tag whose trimmed text is `key` and then nothing or "=" and `value`. */
  lemma ReadJoined(tag: string, key: string, value: Option<string>, t: Rules)
    requires key != "" && t.trim(tag) == key + Tail(value)
    ensures ReadTag(tag, t).Some?
    ensures EQUALS in key ==> |ReadTag(tag, t).value.key| < |key|
    ensures EQUALS !in key ==> ReadTag(tag, t).value == Label(key, if value.Some? then value.value else "true")
  {
    if EQUALS in key {
      CutInsideTheHead(key, Tail(value));
    } else {
      CutOfTail(t.trim(tag), key, value);
      if value.None? { assert key + Tail(value) == key; }
    }
  }

  lemma PrintedIsTrimmed(k: string, v: string)
    requires Trim(k) != ""
    ensures Trim(Print(k, v, RULES).value) == Trim(k) + if Trim(v) != "" then [EQUALS] + TrimEnd(v) else ""
  {
    TrimIdempotent(k);
    if Trim(v) != "" { PairIsTrimmed(Trim(k), v); }
    PrintedPair(k, v, Trim(k), RULES, TrimEnd);
  }

  lemma PrintedPair(k: string, v: string, key: string, t: Rules, trimEnd: string -> string)
    requires t.trim(k) == key != "" && t.trim(key) == key
    requires t.trim(v) != "" ==> t.trim(key + [EQUALS] + v) == key + [EQUALS] + trimEnd(v)
    ensures t.trim(Print(k, v, t).value) == key + if t.trim(v) != "" then [EQUALS] + trimEnd(v) else ""
  {
    if t.trim(v) != "" {
      assert key + [EQUALS] + trimEnd(v) == key + ([EQUALS] + trimEnd(v));
    } else {
      assert key + "" == key;
    }
  }

  lemma TagReadsBack(k: string, v: string)
    requires RULES.trim(k) != ""
    ensures ReadBack(k, v, ReadTag(Print(k, v, RULES).value, RULES), RULES, TrimEnd)
  {
    TrimIsNoLonger(k);
    PrintedIsTrimmed(k, v);
    ReadKeyed(k, v, RULES, TrimEnd);
  }

  lemma ReadKeyed(k: string, v: string, t: Rules, trimEnd: string -> string)
    requires t.trim(k) != "" && |t.trim(k)| <= |k| && (|t.trim(k)| == |k| ==> t.trim(k) == k)
    requires t.trim(Print(k, v, t).value) == t.trim(k) + if t.trim(v) != "" then [EQUALS] + trimEnd(v) else ""
    ensures ReadBack(k, v, ReadTag(Print(k, v, t).value, t), t, trimEnd)
  {
    ReadJoined(Print(k, v, t).value, t.trim(k), if t.trim(v) != "" then Some(trimEnd(v)) else None, t);
  }

  lemma TextTagsReadBack()
    ensures TagsReadBack(RULES, TrimEnd)
  {
    forall k, v | RULES.trim(k) != "" ensures ReadBack(k, v, ReadTag(Print(k, v, RULES).value, RULES), RULES, TrimEnd) {
      TagReadsBack(k, v);
    }
  }

  /** The selectors printed from configured labels mean these labels, for every instance and in whatever order the
      map is walked, if and only if no key has a "=", or both want two values of one key. */
  lemma ConfiguredSelectorsIff(labels: map<string, string>, keys: seq<string>)
    requires Enumerates(keys, labels)
    ensures SelectorsMean(labels, keys, RULES) <==>
              if Clash(AllWanted(keys, labels, RULES)) then Clash(DemandsOf(Printed(keys, labels, RULES), RULES))
              else Printable(labels, RULES)
  {
    TextReadsBack();
    SelectorsMeanLabelsIff(labels, keys, RULES);
  }

  /** Of labels without "=" in a key, the selectors match exactly the instances that have every key that is not blank,
      trimmed, with the trimmed value where that is not blank. */
  lemma ConfiguredSelectorsMatch(actual: map<string, string>, labels: map<string, string>, keys: seq<string>)
    requires Enumerates(keys, labels) && forall k | k in labels :: '=' !in Trim(k)
    ensures LabelsMatch(actual, Printed(keys, labels, RULES), RULES) <==>
              forall k | k in labels && Trim(k) != "" ::
                Trim(k) in actual && (Trim(labels[k]) == "" || actual[Trim(k)] == Trim(labels[k]))
  {
    TextReadsBack();
    assert Printable(labels, RULES) by {
      forall k | k in labels ensures EQUALS !in RULES.trim(k) {
        assert '=' !in Trim(k);
      }
    }
    SelectorsMeanLabels(actual, labels, keys, RULES);
    AskedMeans(actual, labels, RULES);
  }

  lemma AskedMeans(actual: map<string, string>, labels: map<string, string>, t: Rules)
    ensures AllAsked(actual, labels, t) <==>
              forall k | k in labels && t.trim(k) != "" ::
                t.trim(k) in actual && (t.trim(labels[k]) == "" || actual[t.trim(k)] == t.trim(labels[k]))
  {
    forall k | k in labels
      ensures Asked(actual, k, labels[k], t) <==>
                t.trim(k) == "" ||
                (t.trim(k) in actual && (t.trim(labels[k]) == "" || actual[t.trim(k)] == t.trim(labels[k])))
    {
    }
  }

  /** Labels survive the tags if and only if every key is trimmed, not blank and without "=", and every value is not
      blank and has no white space at its end. */
  lemma ConsulTagsIff(labels: map<string, string>, keys: seq<string>)
    requires Enumerates(keys, labels)
    ensures LabelsOf(Printed(keys, labels, RULES), RULES) == labels
            <==> forall k | k in labels :: Survives(k, labels[k])
  {
    TextTagsReadBack();
    TagsRoundTripIff(keys, labels, RULES, TrimEnd);
    forall k | k in labels
      ensures Survives(k, labels[k]) <==> CleanKey(k, RULES) && Kept(labels[k], RULES, TrimEnd) == labels[k]
    {
      SurvivesIff(k, labels[k]);
    }
  }

  predicate Survives(key: string, value: string) {
    key != "" && Trim(key) == key && '=' !in key && Trim(value) != "" && value[|value| - 1] !in SPACES
  }

  lemma SurvivesIff(k: string, v: string)
    ensures Survives(k, v) <==> CleanKey(k, RULES) && Kept(v, RULES, TrimEnd) == v
  {
    KeptIff(v);
  }

  lemma TrueIsTrimmed()
    ensures Trimmed("true", SPACES)
  {
  }

  lemma TrimmedIsNotBlank(v: string, cut: set<char>)
    requires Trimmed(v, cut) && v != ""
    ensures TrimBoth(v, cut) != ""
  {
    TrimmedIsFixed(v, cut);
  }

  /** What survives: a value that is not blank and whose last character is no white space. */
  lemma KeptIff(v: string)
    ensures Kept(v, RULES, TrimEnd) == v <==> Trim(v) != "" && v[|v| - 1] !in SPACES
  {
    TrueIsTrimmed();
    TrimmedIsNotBlank("true", SPACES);
  }
}
