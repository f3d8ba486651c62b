/** The string helpers of the framework: trimming, lower-casing, cutting and
    decimal printing, over ASCII characters. */
module Text {

  const SPACES: set<char> := {' ', '\t', '\n', '\r', '\U{0B}', '\U{0C}'}
  const SLASH: set<char> := {'/'}

  /** Removes the leading characters that belong to `cut`. The contract determines the result. */
  function TrimLeft(s: string, cut: set<char>): (r: string)
    ensures |r| <= |s| && r == s[|s| - |r|..]
    ensures forall i :: 0 <= i < |s| - |r| ==> s[i] in cut
    ensures r != "" ==> r[0] !in cut
  {
    if s != "" && s[0] in cut then TrimLeft(s[1..], cut) else s
  }

  /** Removes the trailing characters that belong to `cut`. The contract determines the result. */
  function TrimRight(s: string, cut: set<char>): (r: string)
    ensures |r| <= |s| && r == s[..|r|]
    ensures forall i :: |r| <= i < |s| ==> s[i] in cut
    ensures r != "" ==> r[|r| - 1] !in cut
  {
    if s != "" && s[|s| - 1] in cut then TrimRight(s[..|s| - 1], cut) else s
  }

  function TrimBoth(s: string, cut: set<char>): string {
    TrimRight(TrimLeft(s, cut), cut)
  }

  function Trim(s: string): string {
    TrimBoth(s, SPACES)
  }

  /** Trimming a concatenation stops inside the part that has something to keep. */
  lemma {:induction false} TrimLeftConcat(x: string, y: string, cut: set<char>)
    ensures TrimLeft(x + y, cut) == if TrimLeft(x, cut) != "" then TrimLeft(x, cut) + y else TrimLeft(y, cut)
  {
    if x == "" {
      assert x + y == y;
    } else {
      assert (x + y)[1..] == x[1..] + y;
      TrimLeftConcat(x[1..], y, cut);
    }
  }

  lemma {:induction false} TrimRightConcat(x: string, y: string, cut: set<char>)
    ensures TrimRight(x + y, cut) == if TrimRight(y, cut) != "" then x + TrimRight(y, cut) else TrimRight(x, cut)
    decreases |y|
  {
    if y == "" {
      assert x + y == x;
    } else {
      var z := y[..|y| - 1];
      assert (x + y)[..|x + y| - 1] == x + z;
      TrimRightConcat(x, z, cut);
    }
  }

  /** The two trims commute, and agree on when nothing is left. */
  lemma TrimsCommute(s: string, cut: set<char>)
    ensures TrimRight(TrimLeft(s, cut), cut) == TrimLeft(TrimRight(s, cut), cut)
    ensures TrimLeft(s, cut) == "" <==> TrimRight(s, cut) == ""
  {
    var l := TrimLeft(s, cut);
    var pre := s[..|s| - |l|];
    assert s == pre + l;
    assert TrimLeft(pre, cut) == "";
    assert TrimRight(pre, cut) == "";
    TrimRightConcat(pre, l, cut);
    TrimLeftConcat(pre, TrimRight(l, cut), cut);
    assert l != ""
      ==> TrimRight(l, cut) != "" && TrimRight(l, cut)[0] == l[0]
          && TrimLeft(TrimRight(l, cut), cut) == TrimRight(l, cut);
  }

  lemma TrimLeftBefore(head: string, tail: string, cut: set<char>)
    requires tail != "" && tail[0] !in cut
    ensures TrimLeft(head + tail, cut) == TrimLeft(head, cut) + tail
  {
    TrimLeftConcat(head, tail, cut);
    assert TrimLeft(tail, cut) == tail;
    assert "" + tail == tail;
  }

  predicate Trimmed(s: string, cut: set<char>) {
    s == "" || (s[0] !in cut && s[|s| - 1] !in cut)
  }

  /** Trimming yields a trimmed string and fixes exactly the trimmed ones. */
  lemma TrimmedIsFixed(s: string, cut: set<char>)
    ensures Trimmed(TrimBoth(s, cut), cut)
    ensures Trimmed(s, cut) <==> TrimBoth(s, cut) == s
  {
    var l := TrimLeft(s, cut);
    var r := TrimRight(l, cut);
    if r != "" {
      assert r[0] == l[0];
    }
    if Trimmed(s, cut) && s != "" {
      assert s[0] !in cut && s[|s| - 1] !in cut;
      assert l == s;
      assert r == l;
    }
  }

  lemma TrimIdempotent(s: string)
    ensures Trim(Trim(s)) == Trim(s)
    ensures Trimmed(Trim(s), SPACES)
  {
    TrimmedIsFixed(s, SPACES);
    TrimmedIsFixed(Trim(s), SPACES);
  }

  function LowerChar(c: char): char {
    if 'A' <= c <= 'Z' then c - 'A' + 'a' else c
  }

  function ToLower(s: string): (r: string)
    ensures |r| == |s| && forall i :: 0 <= i < |s| ==> r[i] == LowerChar(s[i])
  {
    seq(|s|, i requires 0 <= i < |s| => LowerChar(s[i]))
  }

  predicate EqualFold(a: string, b: string) {
    ToLower(a) == ToLower(b)
  }

  lemma ToLowerIdempotent(s: string)
    ensures ToLower(ToLower(s)) == ToLower(s)
  {
  }

  lemma ToLowerKeepsTrimmed(s: string)
    requires Trimmed(s, SPACES)
    ensures Trimmed(ToLower(s), SPACES)
  {
  }

  /** `text` up to the first `c`, what follows it, and whether it was there. */
  datatype CutResult = CutResult(before: string, after: string, found: bool)

  function Cut(s: string, c: char): (r: CutResult)
    ensures c !in r.before
    ensures s == if r.found then r.before + [c] + r.after else r.before
    ensures !r.found ==> r.after == ""
  {
    if s == "" then CutResult("", "", false)
    else if s[0] == c then
      assert s == "" + [c] + s[1..];
      CutResult("", s[1..], true)
    else
      var rest := Cut(s[1..], c);
      var r := CutResult([s[0]] + rest.before, rest.after, rest.found);
      assert s == [s[0]] + s[1..];
      r
  }

  /** Cutting is the inverse of joining a separator-free head to any tail. */
  lemma CutOfJoin(head: string, c: char, tail: string)
    requires c !in head
    ensures Cut(head + [c] + tail, c) == CutResult(head, tail, true)
    ensures Cut(head, c) == CutResult(head, "", false)
  {
    var s := head + [c] + tail;
    var r := Cut(s, c);
    assert s[|head|] == c;
    FirstSeparatorIsUnique(head, tail, r.before, r.after, c);
    var q := Cut(head, c);
    assert q.found ==> c in q.before + [c] + q.after;
  }

  lemma FirstSeparatorIsUnique(h1: string, t1: string, h2: string, t2: string, c: char)
    requires c !in h1 && c !in h2
    requires h1 + [c] + t1 == h2 + [c] + t2 || h1 + [c] + t1 == h2
    ensures h1 == h2 && t1 == t2
  {
    var s1, s2 := h1 + [c] + t1, h2 + [c] + t2;
    assert c in s1;
    assert s1 == s2;
    assert s1[|h1|] == c && s2[|h2|] == c;
    assert forall i :: 0 <= i < |h1| ==> s1[i] == h1[i] != c;
    assert forall i :: 0 <= i < |h2| ==> s2[i] == h2[i] != c;
    assert h1 == s1[..|h1|] && h2 == s2[..|h1|];
    assert t1 == s1[|h1| + 1..] && t2 == s2[|h1| + 1..];
  }

  predicate HasPrefix(s: string, p: string) {
    |p| <= |s| && s[..|p|] == p
  }

  const DIGITS := "0123456789"

  /** Decimal printing of a natural number. */
  function Itoa(n: nat): (r: string)
    ensures r != ""
    ensures forall i :: 0 <= i < |r| ==> r[i] in DIGITS
  {
    if n < 10 then [DIGITS[n]] else Itoa(n / 10) + [DIGITS[n % 10]]
  }

  lemma {:induction false} ItoaInjective(m: nat, n: nat)
    requires Itoa(m) == Itoa(n)
    ensures m == n
    decreases m
  {
    var a, b := Itoa(m), Itoa(n);
    assert a[|a| - 1] == DIGITS[m % 10];
    assert b[|b| - 1] == DIGITS[n % 10];
    assert m % 10 == n % 10;
    if m < 10 || n < 10 {
    } else {
      assert Itoa(m / 10) == a[..|a| - 1];
      assert Itoa(n / 10) == b[..|b| - 1];
      ItoaInjective(m / 10, n / 10);
    }
  }

  // ---------- What the helpers mean ----------

  /** Space, and the five characters from tab to carriage return. */
  lemma SpacesAre(c: char)
    ensures c in SPACES <==> c == ' ' || 9 <= c as int <= 13
    ensures c in SLASH <==> c == '/'
  {
  }

  /** Lower case moves 'A' to 'Z' up by 32 and leaves every other character. */
  lemma ToLowerMeans(s: string)
    ensures |ToLower(s)| == |s|
    ensures forall i :: 0 <= i < |s| ==>
              ToLower(s)[i] == if 'A' <= s[i] <= 'Z' then (s[i] as int + 32) as char else s[i]
  {
  }

  /** The same letter in either case. */
  predicate SameLetter(c: char, d: char) {
    c == d || ('A' <= c <= 'Z' && d as int == c as int + 32) || ('A' <= d <= 'Z' && c as int == d as int + 32)
  }

  /** Equal up to case: character by character the same letter in either case. */
  lemma EqualFoldMeans(a: string, b: string)
    ensures EqualFold(a, b) <==> |a| == |b| && forall i :: 0 <= i < |a| ==> SameLetter(a[i], b[i])
  {
    if EqualFold(a, b) {
      forall i | 0 <= i < |a| ensures SameLetter(a[i], b[i]) {
        assert ToLower(a)[i] == ToLower(b)[i];
      }
    }
  }

  /** Trimming takes white space off both ends, and all of it. */
  lemma TrimMeans(s: string) returns (before: string, after: string)
    ensures s == before + Trim(s) + after
    ensures forall c | c in before || c in after :: c == ' ' || 9 <= c as int <= 13
    ensures var t := Trim(s);
            t != "" ==> t[0] != ' ' && !(9 <= t[0] as int <= 13)
                        && t[|t| - 1] != ' ' && !(9 <= t[|t| - 1] as int <= 13)
  {
    before, after := TrimBothMeans(s, SPACES);
    forall c | c in before || c in after ensures c == ' ' || 9 <= c as int <= 13 {
      SpacesAre(c);
    }
    var t := Trim(s);
    if t != "" {
      SpacesAre(t[0]);
      SpacesAre(t[|t| - 1]);
    }
  }

  lemma TrimLeftMeans(s: string, cut: set<char>) returns (before: string)
    ensures s == before + TrimLeft(s, cut) && forall c | c in before :: c in cut
  {
    before := s[..|s| - |TrimLeft(s, cut)|];
  }

  lemma TrimRightMeans(s: string, cut: set<char>) returns (after: string)
    ensures s == TrimRight(s, cut) + after && forall c | c in after :: c in cut
  {
    after := s[|TrimRight(s, cut)|..];
  }

  lemma JoinTwice(s: string, before: string, l: string, t: string, after: string)
    requires s == before + l && l == t + after
    ensures s == before + t + after
  {
  }

  lemma TrimBothMeans(s: string, cut: set<char>) returns (before: string, after: string)
    ensures s == before + TrimBoth(s, cut) + after && forall c | c in before || c in after :: c in cut
    ensures var t := TrimBoth(s, cut); t != "" ==> t[0] !in cut && t[|t| - 1] !in cut
  {
    before := TrimLeftMeans(s, cut);
    after := TrimRightMeans(TrimLeft(s, cut), cut);
    JoinTwice(s, before, TrimLeft(s, cut), TrimBoth(s, cut), after);
    TrimmedIsFixed(s, cut);
  }

  /** A prefix is what something follows. */
  lemma HasPrefixMeans(s: string, p: string)
    ensures HasPrefix(s, p) <==> exists rest :: s == p + rest
  {
    if HasPrefix(s, p) {
      assert s == p + s[|p|..];
    }
  }

  /** The number that decimal digits stand for. */
  function ValueOf(digits: string): int {
    if digits == "" then 0 else 10 * ValueOf(digits[..|digits| - 1]) + (digits[|digits| - 1] as int - '0' as int)
  }

  /** Printing is decimal, without leading zeros. */
  lemma {:induction false} ItoaMeans(n: nat)
    ensures ValueOf(Itoa(n)) == n && (Itoa(n)[0] == '0' ==> n == 0)
  {
    DigitMeans(n % 10);
    if n < 10 {
      assert Itoa(n)[..0] == "";
    } else {
      ItoaMeans(n / 10);
      assert Itoa(n)[..|Itoa(n)| - 1] == Itoa(n / 10);
    }
  }

  lemma DigitMeans(d: nat)
    requires d < 10
    ensures DIGITS[d] as int == '0' as int + d
  {
  }
}
