/**
 Strings as the scripts see them: the few Python `str` operations they use
 (`strip`, `rstrip(c)`, `lower`, `upper`, `find`, `rfind`, `startswith`,
 `split(sep, 1)`, `in`, `join`), each with the guarantee a caller relies on.
 */
module Text {
  import opened Wrappers

  /**
   The characters `str.isspace()` and the regex class `\s` accept: the
   ASCII controls 0x09-0x0D and 0x1C-0x1F, the space, and the Unicode
   spaces from 0x85 on.
   */
  predicate IsSpace(c: char) {
    if c <= ' ' then c == ' ' || ('\t' <= c <= '\r') || ('\U{1C}' <= c <= '\U{1F}')
    else if c < '\U{85}' then false
    else
      || c == '\U{85}' || c == '\U{A0}' || c == '\U{1680}'
      || ('\U{2000}' <= c <= '\U{200A}')
      || c == '\U{2028}' || c == '\U{2029}' || c == '\U{202F}' || c == '\U{205F}' || c == '\U{3000}'
  }

  /** Nothing for `strip()` to remove. */
  predicate Trimmed(s: string) {
    |s| == 0 || (!IsSpace(s[0]) && !IsSpace(s[|s| - 1]))
  }

  predicate AllSpace(s: string) {
    forall i :: 0 <= i < |s| ==> IsSpace(s[i])
  }

  function LStrip(s: string): (r: string)
    ensures |r| <= |s| && r == s[|s| - |r|..]
    ensures |r| == 0 || !IsSpace(r[0])
    ensures AllSpace(s[..|s| - |r|])
    decreases |s|
  {
    if |s| > 0 && IsSpace(s[0]) then
      var r := LStrip(s[1..]);
      assert s[..|s| - |r|] == [s[0]] + s[1..][..|s| - 1 - |r|];
      r
    else s
  }

  function RStrip(s: string): (r: string)
    ensures |r| <= |s| && r == s[..|r|]
    ensures |r| == 0 || !IsSpace(r[|r| - 1])
    ensures AllSpace(s[|r|..])
    decreases |s|
  {
    if |s| > 0 && IsSpace(s[|s| - 1]) then
      var r := RStrip(s[..|s| - 1]);
      assert s[|r|..] == s[..|s| - 1][|r|..] + [s[|s| - 1]];
      r
    else s
  }

  /** Number of whitespace characters `strip()` removes at the front. */
  function LeadingSpace(s: string): nat
    ensures LeadingSpace(s) <= |s|
  {
    |s| - |LStrip(s)|
  }

  /** `s.strip()`: whitespace removed from both ends. */
  function Strip(s: string): (r: string)
    ensures Trimmed(r) && |r| <= |s|
  {
    var t := LStrip(s);
    var r := RStrip(t);
    assert |r| == 0 || r[0] == t[0];
    r
  }

  /** What `strip()` keeps is the slice of `s` between two all-whitespace ends. */
  lemma StripSpan(s: string) returns (lo: nat, hi: nat)
    ensures lo <= hi <= |s| && Strip(s) == s[lo..hi]
    ensures AllSpace(s[..lo]) && AllSpace(s[hi..])
  {
    var t := LStrip(s);
    var r := RStrip(t);
    lo := |s| - |t|;
    hi := lo + |r|;
    SpanOfSlices(s, t, r);
  }

  /** A prefix `r` of a suffix `t` of `s` is the slice of `s` between the two cut points. */
  lemma SpanOfSlices(s: string, t: string, r: string)
    requires |t| <= |s| && t == s[|s| - |t|..] && |r| <= |t| && r == t[..|r|]
    ensures r == s[|s| - |t|..|s| - |t| + |r|] && t[|r|..] == s[|s| - |t| + |r|..]
  {
  }

  /** `s.strip(c)` for a single character `c`. */
  function StripChar(s: string, c: char): (r: string)
    ensures |r| <= |s|
    ensures |r| == 0 || (r[0] != c && r[|r| - 1] != c)
    ensures forall x :: x in r ==> x in s
    decreases |s|
  {
    if |s| > 0 && s[0] == c then StripChar(s[1..], c)
    else if |s| > 0 && s[|s| - 1] == c then StripChar(s[..|s| - 1], c)
    else s
  }

  /**
   `strip(c)` keeps a slice of `s` and removes only copies of `c` on either
   side of it; with the ends of the result not `c`, this pins the result.
   */
  lemma {:induction false} StripCharSpan(s: string, c: char) returns (lo: nat, hi: nat)
    ensures lo <= hi <= |s| && StripChar(s, c) == s[lo..hi]
    ensures forall i :: 0 <= i < lo ==> s[i] == c
    ensures forall i :: hi <= i < |s| ==> s[i] == c
    decreases |s|
  {
    if |s| > 0 && s[0] == c {
      var l, h := StripCharSpan(s[1..], c);
      lo, hi := l + 1, h + 1;
      assert s[1..][l..h] == s[lo..hi];
      forall i | 0 < i < lo ensures s[i] == c {
        assert s[1..][i - 1] == s[i];
      }
      forall i | hi <= i < |s| ensures s[i] == c {
        assert s[1..][i - 1] == s[i];
      }
    } else if |s| > 0 && s[|s| - 1] == c {
      lo, hi := StripCharSpan(s[..|s| - 1], c);
      assert s[..|s| - 1][lo..hi] == s[lo..hi];
      forall i | hi <= i < |s| - 1 ensures s[i] == c {
        assert s[..|s| - 1][i] == s[i];
      }
    } else {
      lo, hi := 0, |s|;
    }
  }

  /** `s.rstrip(c)` for a single character `c`. */
  function RStripChar(s: string, c: char): (r: string)
    ensures |r| <= |s| && r == s[..|r|]
    ensures |r| == 0 || r[|r| - 1] != c
    ensures forall i :: |r| <= i < |s| ==> s[i] == c
    decreases |s|
  {
    if |s| > 0 && s[|s| - 1] == c then RStripChar(s[..|s| - 1], c) else s
  }

  /** `rstrip(c)` removes exactly a trailing run of `c` from a text that does not end in `c`. */
  lemma RStripCharOf(t: string, run: string, c: char)
    requires |t| == 0 || t[|t| - 1] != c
    requires forall i :: 0 <= i < |run| ==> run[i] == c
    ensures RStripChar(t + run, c) == t
  {
    var s := t + run;
    assert forall i :: |t| <= i < |s| ==> s[i] == run[i - |t|];
    assert s[..|t|] == t;
  }

  function LowerChar(c: char): char {
    if 'A' <= c <= 'Z' then (c as int + 32) as char else c
  }

  function UpperChar(c: char): char {
    if 'a' <= c <= 'z' then (c as int - 32) as char else c
  }

  /** `s.lower()` (case mapping of the ASCII letters). */
  function Lower(s: string): (r: string)
    ensures |r| == |s| && forall i :: 0 <= i < |s| ==> r[i] == LowerChar(s[i])
  {
    seq(|s|, i requires 0 <= i < |s| => LowerChar(s[i]))
  }

  /** `s.upper()` (case mapping of the ASCII letters). */
  function Upper(s: string): (r: string)
    ensures |r| == |s| && forall i :: 0 <= i < |s| ==> r[i] == UpperChar(s[i])
  {
    seq(|s|, i requires 0 <= i < |s| => UpperChar(s[i]))
  }

  /** `s.startswith(p)` */
  predicate StartsWith(s: string, p: string) {
    |p| <= |s| && s[..|p|] == p
  }

  predicate EndsWith(s: string, p: string) {
    |p| <= |s| && s[|s| - |p|..] == p
  }

  /** `pat` occurs in `s` starting at index `i`. */
  predicate OccursAt(s: string, pat: string, i: int) {
    0 <= i && i + |pat| <= |s| && s[i..i + |pat|] == pat
  }

  /** `s.find(pat, from)`: the first occurrence at or after `from`. */
  function FindFrom(s: string, pat: string, from: nat): (r: Option<nat>)
    ensures r.Some? ==> from <= r.value && OccursAt(s, pat, r.value)
    ensures r.Some? ==> forall j :: from <= j < r.value ==> !OccursAt(s, pat, j)
    ensures r.None? ==> forall j :: from <= j ==> !OccursAt(s, pat, j)
    decreases |s| - from
  {
    if from + |pat| > |s| then None
    else if s[from..from + |pat|] == pat then Some(from)
    else FindFrom(s, pat, from + 1)
  }

  /** The last occurrence of `pat` starting at or before `hi`. */
  function FindLast(s: string, pat: string, hi: int): (r: Option<nat>)
    ensures r.Some? ==> r.value <= hi && OccursAt(s, pat, r.value)
    ensures r.Some? ==> forall j :: r.value < j <= hi ==> !OccursAt(s, pat, j)
    ensures r.None? ==> forall j :: j <= hi ==> !OccursAt(s, pat, j)
    decreases hi + 1
  {
    if hi < 0 then None
    else if OccursAt(s, pat, hi) then Some(hi)
    else FindLast(s, pat, hi - 1)
  }

  /** Python's `s.find(pat)`: an index, or -1. */
  function PyFind(s: string, pat: string): int {
    match FindFrom(s, pat, 0)
    case Some(i) => i
    case None => -1
  }

  /** Python's `s.rfind(pat)`: an index, or -1. */
  function PyRFind(s: string, pat: string): int {
    match FindLast(s, pat, |s|)
    case Some(i) => i
    case None => -1
  }

  /** `pat in s` */
  predicate Contains(s: string, pat: string) {
    FindFrom(s, pat, 0).Some?
  }

  lemma ContainsAt(s: string, pat: string, i: int)
    requires OccursAt(s, pat, i)
    ensures Contains(s, pat)
  {
  }

  lemma ContainsWitness(s: string, pat: string) returns (i: nat)
    requires Contains(s, pat)
    ensures OccursAt(s, pat, i)
  {
    i := FindFrom(s, pat, 0).value;
  }

  /** A pattern that starts with `c` does not occur in a string without `c`. */
  lemma AbsentFirstChar(s: string, pat: string)
    requires |pat| > 0 && pat[0] !in s
    ensures !Contains(s, pat)
  {
    forall i | 0 <= i && i + |pat| <= |s|
      ensures !OccursAt(s, pat, i)
    {
      assert s[i..i + |pat|][0] == s[i];
    }
  }

  /** The slice of `s` from `i` of `w`'s length lower-cases to `w`. */
  predicate LowerOccursAt(s: string, w: string, i: int) {
    0 <= i && i + |w| <= |s| && Lower(s[i..i + |w|]) == w
  }

  /** Some slice of `s` lower-cases to `w`: `w` occurs in `s` regardless of the case of its ASCII letters. */
  ghost predicate OccursIgnoringCase(s: string, w: string) {
    exists i :: LowerOccursAt(s, w, i)
  }

  /** `w in s.lower()` finds `w` in `s` regardless of case. */
  lemma LowerContains(s: string, w: string)
    ensures Contains(Lower(s), w) <==> OccursIgnoringCase(s, w)
  {
    if Contains(Lower(s), w) {
      var i := ContainsWitness(Lower(s), w);
      assert Lower(s[i..i + |w|]) == Lower(s)[i..i + |w|];
      assert LowerOccursAt(s, w, i);
    }
    if OccursIgnoringCase(s, w) {
      var i :| LowerOccursAt(s, w, i);
      assert Lower(s)[i..i + |w|] == Lower(s[i..i + |w|]);
      ContainsAt(Lower(s), w, i);
    }
  }

  /** Upper-casing commutes with taking a prefix. */
  lemma UpperPrefix(s: string, n: nat)
    ensures n <= |s| ==> Upper(s)[..n] == Upper(s[..n])
  {
  }

  /** The index of the first `c` in `s`. */
  function IndexOf(s: string, c: char): (r: Option<nat>)
    ensures r.Some? ==> r.value < |s| && s[r.value] == c && c !in s[..r.value]
    ensures r.None? ==> c !in s
  {
    if |s| == 0 then None
    else if s[0] == c then Some(0)
    else match IndexOf(s[1..], c)
      case None => None
      case Some(i) => assert s[..i + 1] == [s[0]] + s[1..][..i]; Some(i + 1)
  }

  /** The index of the last `c` in `s`. */
  function LastIndexOf(s: string, c: char): (r: Option<nat>)
    ensures r.Some? ==> r.value < |s| && s[r.value] == c && c !in s[r.value + 1..]
    ensures r.None? ==> c !in s
    decreases |s|
  {
    if |s| == 0 then None
    else if s[|s| - 1] == c then Some(|s| - 1)
    else match LastIndexOf(s[..|s| - 1], c)
      case None => None
      case Some(i) => assert s[i + 1..] == s[..|s| - 1][i + 1..] + [s[|s| - 1]]; Some(i)
  }

  /** `s.split(c)[0]`: everything before the first `c`. */
  function BeforeFirst(s: string, c: char): (r: string)
    ensures c !in r
    ensures StartsWith(s, r)
    ensures |r| == |s| || s[|r|] == c
  {
    match IndexOf(s, c)
    case None => s
    case Some(i) => s[..i]
  }

  /** `s.split(c, 1)` when `c in s`: the text before and after the first `c`. */
  function Partition(s: string, c: char): (r: Option<(string, string)>)
    ensures r.None? <==> c !in s
    ensures r.Some? ==> s == r.value.0 + [c] + r.value.1 && c !in r.value.0
  {
    match IndexOf(s, c)
    case None => None
    case Some(i) =>
      assert s == s[..i] + [c] + s[i + 1..];
      Some((s[..i], s[i + 1..]))
  }

  /** Splitting `key=rest` at its first '=' gives back `key` and `rest` when `key` has none. */
  lemma PartitionAt(key: string, rest: string)
    requires '=' !in key
    ensures Partition(key + ['='] + rest, '=') == Some((key, rest))
  {
    PartitionOf(key, '=', rest);
  }

  /** Splitting at the first `c` finds the `c` placed right after a part without one. */
  lemma PartitionOf(key: string, c: char, rest: string)
    requires c !in key
    ensures Partition(key + [c] + rest, c) == Some((key, rest))
  {
    var s := key + [c] + rest;
    assert s[..|key|] == key && s[|key|] == c;
    assert IndexOf(s, c) == Some(|key|);
    assert s[|key| + 1..] == rest;
  }

  /** `s.split(c)` for a one-character separator `c`. */
  function SplitOn(s: string, c: char): (r: seq<string>)
    ensures |r| > 0
    ensures forall k :: 0 <= k < |r| ==> c !in r[k]
    decreases |s|
  {
    match Partition(s, c)
    case None => [s]
    case Some((before, after)) => [before] + SplitOn(after, c)
  }

  /** Joining the pieces of a split with the separator gives the string back. */
  lemma {:induction false} SplitOnJoin(s: string, c: char)
    ensures Join([c], SplitOn(s, c)) == s
    decreases |s|
  {
    match Partition(s, c)
    case None =>
    case Some((before, after)) =>
      SplitOnJoin(after, c);
      var pieces := SplitOn(after, c);
      assert SplitOn(s, c) == [before] + pieces;
      assert ([before] + pieces)[1..] == pieces;
  }

  /** Splitting a join of parts without the separator gives the parts back. */
  lemma {:induction false} JoinSplitOn(c: char, xs: seq<string>)
    requires |xs| > 0 && forall k :: 0 <= k < |xs| ==> c !in xs[k]
    ensures SplitOn(Join([c], xs), c) == xs
  {
    if |xs| > 1 {
      var rest := Join([c], xs[1..]);
      PartitionOf(xs[0], c, rest);
      JoinSplitOn(c, xs[1..]);
      assert SplitOn(Join([c], xs), c) == [xs[0]] + xs[1..];
    } else {
      assert Partition(xs[0], c).None?;
    }
  }

  /** `sep.join(xs)` */
  function Join(sep: string, xs: seq<string>): (r: string)
    ensures |xs| == 0 ==> r == ""
    ensures |xs| == 1 ==> r == xs[0]
  {
    if |xs| == 0 then ""
    else if |xs| == 1 then xs[0]
    else xs[0] + sep + Join(sep, xs[1..])
  }

  /** `sep.join` built from the left, one part at a time, as a loop appending to a list would. */
  lemma {:induction false} JoinAppend(sep: string, xs: seq<string>, x: string)
    requires |xs| > 0
    ensures Join(sep, xs + [x]) == Join(sep, xs) + sep + x
    decreases |xs|
  {
    if |xs| == 1 {
      assert (xs + [x])[1..] == [x];
    } else {
      assert (xs + [x])[1..] == xs[1..] + [x];
      JoinAppend(sep, xs[1..], x);
    }
  }

  /** A join holds no `c` when neither its parts nor its separator do. */
  lemma {:induction false} JoinAvoids(sep: string, xs: seq<string>, c: char)
    requires c !in sep && forall k :: 0 <= k < |xs| ==> c !in xs[k]
    ensures c !in Join(sep, xs)
  {
    if |xs| >= 2 {
      JoinAvoids(sep, xs[1..], c);
      assert Join(sep, xs) == xs[0] + sep + Join(sep, xs[1..]);
    }
  }

  /** A join of strings that are not all empty is not empty. */
  lemma {:induction false} JoinEmpty(sep: string, xs: seq<string>)
    ensures Join(sep, xs) == "" <==> (|xs| == 0 || (|xs| == 1 && xs[0] == "") || (|xs| >= 2 && xs[0] == "" && sep == "" && Join(sep, xs[1..]) == ""))
  {
  }

  /** Joining non-empty parts gives the empty string exactly when there are no parts. */
  lemma {:induction false} JoinNonEmptyParts(sep: string, xs: seq<string>)
    requires forall i :: 0 <= i < |xs| ==> xs[i] != ""
    ensures Join(sep, xs) == "" <==> |xs| == 0
  {
    if |xs| >= 2 {
      assert |Join(sep, xs)| >= |xs[0]| > 0;
    }
  }

  predicate IsDigit(c: char) { '0' <= c <= '9' }

  function DigitChar(d: nat): (c: char)
    requires d < 10
    ensures IsDigit(c)
  {
    ('0' as int + d) as char
  }

  /** `str(n)` for a natural number: its decimal digits. */
  function NatToString(n: nat): (r: string)
    ensures |r| > 0 && forall i :: 0 <= i < |r| ==> IsDigit(r[i])
    ensures |r| > 1 ==> r[0] != '0'
  {
    if n < 10 then [DigitChar(n)] else NatToString(n / 10) + [DigitChar(n % 10)]
  }

  /** `int(s)` on a string of decimal digits. */
  function ParseNat(s: string): nat
    requires forall i :: 0 <= i < |s| ==> IsDigit(s[i])
  {
    if |s| == 0 then 0
    else
      var last := s[|s| - 1];
      assert IsDigit(last);
      10 * ParseNat(s[..|s| - 1]) + (last as int - '0' as int)
  }

  /** Rendering a number in decimal loses nothing: `int(str(n)) == n`. */
  lemma {:induction false} NatToStringRoundTrip(n: nat)
    ensures ParseNat(NatToString(n)) == n
  {
    if n >= 10 {
      var s := NatToString(n);
      assert s[..|s| - 1] == NatToString(n / 10);
      NatToStringRoundTrip(n / 10);
    }
  }

  /** Different numbers render differently (row labels never collide). */
  lemma NatToStringInjective(m: nat, n: nat)
    requires NatToString(m) == NatToString(n)
    ensures m == n
  {
    NatToStringRoundTrip(m);
    NatToStringRoundTrip(n);
  }

  lemma StripOfTrimmed(s: string)
    requires Trimmed(s)
    ensures Strip(s) == s
  {
    if |s| > 0 {
      assert LStrip(s) == s;
      assert RStrip(s) == s;
    }
  }

  /** `strip()` is idempotent. */
  lemma StripIdempotent(s: string)
    ensures Strip(Strip(s)) == Strip(s)
  {
    StripOfTrimmed(Strip(s));
  }

  /** `strip()` neither adds nor removes a character that is not whitespace. */
  lemma StripKeepsNonSpace(s: string, c: char)
    requires !IsSpace(c)
    ensures c in Strip(s) <==> c in s
  {
    var lo, hi := StripSpan(s);
    SpanKeepsNonSpace(s, lo, hi, c);
  }

  /** A character that is not whitespace is in `s` exactly when it is between its all-whitespace ends. */
  lemma SpanKeepsNonSpace(s: string, lo: nat, hi: nat, c: char)
    requires lo <= hi <= |s| && AllSpace(s[..lo]) && AllSpace(s[hi..]) && !IsSpace(c)
    ensures c in s[lo..hi] <==> c in s
  {
    forall i | 0 <= i < lo ensures s[i] != c {
      assert s[..lo][i] == s[i];
    }
    forall i | hi <= i < |s| ensures s[i] != c {
      assert s[hi..][i - hi] == s[i];
    }
    if c in s {
      var i :| 0 <= i < |s| && s[i] == c;
      assert s[lo..hi][i - lo] == c;
    }
    if c in s[lo..hi] {
      var i :| 0 <= i < hi - lo && s[lo..hi][i] == c;
      assert s[lo + i] == c;
    }
  }

  /** An occurrence inside a slice is an occurrence in the whole string. */
  lemma SliceOccurs(s: string, lo: nat, hi: nat, pat: string, i: int)
    requires lo <= hi <= |s|
    ensures OccursAt(s[lo..hi], pat, i) ==> OccursAt(s, pat, lo + i)
  {
    if OccursAt(s[lo..hi], pat, i) {
      forall k | 0 <= k < |pat| ensures s[lo + i..lo + i + |pat|][k] == pat[k] {
        assert s[lo..hi][i..i + |pat|][k] == s[lo + i + k];
      }
    }
  }

  /** An occurrence in `s` that lies inside `s[lo..hi]` is an occurrence in the slice. */
  lemma SliceOccursBack(s: string, lo: nat, hi: nat, pat: string, i: int)
    requires lo <= i && i + |pat| <= hi <= |s|
    ensures OccursAt(s, pat, i) ==> OccursAt(s[lo..hi], pat, i - lo)
  {
    if OccursAt(s, pat, i) {
      forall k | 0 <= k < |pat| ensures s[lo..hi][i - lo..i - lo + |pat|][k] == pat[k] {
        assert s[i..i + |pat|][k] == pat[k];
      }
    }
  }

  /** Whatever is absent from `s` is absent from `strip(s)`. */
  lemma StripSubstring(s: string, pat: string)
    requires !Contains(s, pat)
    ensures !Contains(Strip(s), pat)
  {
    var lo, hi := StripSpan(s);
    forall i | 0 <= i
      ensures !OccursAt(Strip(s), pat, i)
    {
      SliceOccurs(s, lo, hi, pat, i);
    }
  }

  lemma {:induction false} LStripSpacePrefix(a: string, t: string)
    requires AllSpace(a) && (|t| == 0 || !IsSpace(t[0]))
    ensures LStrip(a + t) == t
  {
    if |a| > 0 {
      assert (a + t)[1..] == a[1..] + t;
      LStripSpacePrefix(a[1..], t);
    }
  }

  lemma {:induction false} RStripSpaceSuffix(t: string, b: string)
    requires AllSpace(b) && (|t| == 0 || !IsSpace(t[|t| - 1]))
    ensures RStrip(t + b) == t
  {
    if |b| > 0 {
      assert (t + b)[..|t + b| - 1] == t + b[..|b| - 1];
      RStripSpaceSuffix(t, b[..|b| - 1]);
    }
  }

  /** `strip()` removes exactly the whitespace around a trimmed text. */
  lemma StripSurrounded(a: string, t: string, b: string)
    requires AllSpace(a) && AllSpace(b) && Trimmed(t)
    ensures Strip(a + t + b) == t
  {
    if |t| == 0 {
      assert a + t + b == a + b;
      LStripSpacePrefix(a + b, "");
      assert a + b + "" == a + b;
    } else {
      assert a + t + b == a + (t + b);
      LStripSpacePrefix(a, t + b);
      RStripSpaceSuffix(t, b);
    }
  }

  /** Whatever is absent from `s` is absent from each of its slices. */
  lemma SliceSubstring(s: string, lo: nat, hi: nat, pat: string)
    requires lo <= hi <= |s| && !Contains(s, pat)
    ensures !Contains(s[lo..hi], pat)
  {
    forall i | 0 <= i
      ensures !OccursAt(s[lo..hi], pat, i)
    {
      SliceOccurs(s, lo, hi, pat, i);
    }
  }

  /** The result of `strip()` is empty exactly when the input is all whitespace. */
  lemma StripEmpty(s: string)
    ensures Strip(s) == "" <==> AllSpace(s)
  {
    var lo, hi := StripSpan(s);
    var r := Strip(s);
    if lo == hi {
      forall i | 0 <= i < |s| ensures IsSpace(s[i]) {
        assert (i < lo && s[..lo][i] == s[i]) || (i >= hi && s[hi..][i - hi] == s[i]);
      }
    }
  }

  lemma UpperIdempotent(s: string)
    ensures Upper(Upper(s)) == Upper(s)
  {
  }

  lemma LowerIdempotent(s: string)
    ensures Lower(Lower(s)) == Lower(s)
  {
  }

  /** Lower-casing forgets an earlier upper-casing. */
  lemma LowerOfUpper(s: string)
    ensures Lower(Upper(s)) == Lower(s)
  {
    forall i | 0 <= i < |s| ensures Lower(Upper(s))[i] == Lower(s)[i] {
      assert Upper(s)[i] == UpperChar(s[i]);
    }
  }
}
