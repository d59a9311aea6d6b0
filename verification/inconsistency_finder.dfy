/**
 The return-policy inconsistency finder: every file matching a pattern is
 read as numbered non-blank lines, only lines mentioning "return policy" are
 kept, and every relevant line of every file is compared with every relevant
 line of every later file by a local model (the judge), whose verdicts are
 post-processed before "Inconsistent" ones are reported.
 */
module InconsistencyFinder {
  import opened Wrappers
  import opened Text
  import opened Paths
  import opened Sequences

  /** A kept line: its stripped text and its 1-based line (or paragraph) number. */
  datatype Entry = Entry(text: string, line: nat)

  predicate Increasing(es: seq<Entry>) {
    forall k, l :: 0 <= k < l < |es| ==> es[k].line < es[l].line
  }

  /**
   Every entry of `es` is a line of `lines` (numbered from `first`) that is
   not blank after `clean`, under its own number and cleaned text.
   */
  predicate NumberedFrom(es: seq<Entry>, lines: seq<string>, first: nat, clean: string -> string) {
    forall k :: 0 <= k < |es| ==>
      first <= es[k].line < first + |lines| && es[k].text == clean(lines[es[k].line - first]) && es[k].text != ""
  }

  /**
   The numbering of `read_txt_file` and `read_docx_file`: `lines` numbered
   from `first`, cleaned by `clean`, blank ones counted but dropped.
   */
  function NumberFrom(lines: seq<string>, first: nat, clean: string -> string): (r: seq<Entry>)
    ensures |r| <= |lines|
    ensures NumberedFrom(r, lines, first, clean)
    ensures Increasing(r)
  {
    if |lines| == 0 then []
    else
      var rest := NumberFrom(lines[1..], first + 1, clean);
      NumberedShift(rest, lines, first, clean);
      var t := clean(lines[0]);
      if t == "" then rest
      else
        var r := [Entry(t, first)] + rest;
        assert forall k :: 1 <= k < |r| ==> r[k] == rest[k - 1];
        IncreasingCons(Entry(t, first), rest);
        r
  }

  /** Entries numbered from the second line on are entries of the whole, after its first line. */
  lemma NumberedShift(es: seq<Entry>, lines: seq<string>, first: nat, clean: string -> string)
    requires |lines| > 0 && NumberedFrom(es, lines[1..], first + 1, clean)
    ensures NumberedFrom(es, lines, first, clean)
    ensures forall k :: 0 <= k < |es| ==> first < es[k].line
  {
    forall k | 0 <= k < |es| ensures es[k].text == clean(lines[es[k].line - first]) {
      assert lines[1..][es[k].line - (first + 1)] == lines[es[k].line - first];
    }
  }

  lemma IncreasingCons(e: Entry, es: seq<Entry>)
    requires Increasing(es) && forall k :: 0 <= k < |es| ==> e.line < es[k].line
    ensures Increasing([e] + es)
  {
    var r := [e] + es;
    forall k, l | 0 <= k < l < |r| ensures r[k].line < r[l].line {
      assert r[l] == es[l - 1];
      if k > 0 {
        assert r[k] == es[k - 1];
      }
    }
  }

  /** Every line that is not blank after cleaning is kept, under its own number. */
  lemma {:induction false} NumberKeeps(lines: seq<string>, first: nat, clean: string -> string, i: nat)
    requires i < |lines| && clean(lines[i]) != ""
    ensures Entry(clean(lines[i]), first + i) in NumberFrom(lines, first, clean)
  {
    if i > 0 {
      assert lines[1..][i - 1] == lines[i];
      NumberKeeps(lines[1..], first + 1, clean, i - 1);
    }
  }

  /** Lines (or paragraphs) stripped and numbered from 1. */
  function Number(lines: seq<string>): (r: seq<Entry>)
    ensures Increasing(r)
    ensures NumberedFrom(r, lines, 1, Strip)
  {
    NumberFrom(lines, 1, Strip)
  }

  /** Only blank lines are dropped: every other line appears, stripped, under its 1-based number. */
  lemma NumberComplete(lines: seq<string>, i: nat)
    requires i < |lines| && Strip(lines[i]) != ""
    ensures Entry(Strip(lines[i]), i + 1) in Number(lines)
  {
    NumberKeeps(lines, 1, Strip, i);
  }

  /**
   `extract_content`: `.txt` and `.docx` files (extension compared after
   lower-casing) are numbered; `file` is what the reader produced, None when
   it raised (the reader then returns []). Any other extension gives [].
   */
  function ExtractContent(path: string, file: Option<seq<string>>): (r: seq<Entry>)
    ensures Lower(SplitExt(path)) != ".txt" && Lower(SplitExt(path)) != ".docx" ==> r == []
    ensures file.None? ==> r == []
    ensures (Lower(SplitExt(path)) == ".txt" || Lower(SplitExt(path)) == ".docx") && file.Some? ==>
      r == Number(file.value)
  {
    var ext := Lower(SplitExt(path));
    if ext == ".txt" || ext == ".docx" then
      match file
      case None => []
      case Some(lines) => Number(lines)
    else []
  }

  const PolicyPhrase: string := "return policy"

  /** `is_relevant_line`: the line mentions a return policy, in any letter case. */
  predicate IsRelevant(line: string)
    ensures IsRelevant(line) <==> OccursIgnoringCase(line, PolicyPhrase)
  {
    LowerContains(line, PolicyPhrase);
    Contains(Lower(line), PolicyPhrase)
  }

  /** Relevance does not depend on the case of the line. */
  lemma RelevanceIgnoresCase(line: string)
    ensures IsRelevant(Upper(line)) <==> IsRelevant(line)
    ensures IsRelevant(Lower(line)) <==> IsRelevant(line)
  {
    LowerOfUpper(line);
    LowerIdempotent(line);
  }

  /** The entries whose text `keep` accepts, in their original order. */
  function RelevantEntries(es: seq<Entry>, keep: string -> bool): (r: seq<Entry>)
    ensures |r| <= |es|
    ensures forall k :: 0 <= k < |r| ==> r[k] in es && keep(r[k].text)
    ensures Increasing(es) ==> Increasing(r)
  {
    if |es| == 0 then []
    else
      var rest := RelevantEntries(es[1..], keep);
      assert Increasing(es) ==> forall k :: 0 <= k < |rest| ==> es[0].line < rest[k].line;
      if keep(es[0].text) then [es[0]] + rest else rest
  }

  /** No accepted entry is dropped. */
  lemma {:induction false} RelevantKeeps(es: seq<Entry>, keep: string -> bool, i: nat)
    requires i < |es| && keep(es[i].text)
    ensures es[i] in RelevantEntries(es, keep)
  {
    if i > 0 {
      assert es[1..][i - 1] == es[i];
      RelevantKeeps(es[1..], keep, i - 1);
    }
  }

  /** ASCII word characters, as `\b` sees them. */
  predicate IsWordChar(c: char) {
    ('a' <= c <= 'z') || ('A' <= c <= 'Z') || ('0' <= c <= '9') || c == '_'
  }

  /** `\bw\b` matches at index `i` of `s`. */
  predicate WholeWordAt(s: string, w: string, i: int) {
    OccursAt(s, w, i)
    && (i == 0 || !IsWordChar(s[i - 1]))
    && (i + |w| == |s| || !IsWordChar(s[i + |w|]))
  }

  /** The alternatives of the post-processing pattern. */
  const Keywords: seq<string> := ["days", "duration", "quantit", "amount"]

  /**
   `re.search(r'\b(days|duration|quantit|amount)\b', s)` finds a match,
   which it can only do where one of the keywords occurs.
   */
  predicate HasKeyword(s: string)
    ensures (forall k :: 0 <= k < |Keywords| ==> !Contains(s, Keywords[k])) ==> !HasKeyword(s)
  {
    KeywordContained(s);
    exists k, i :: 0 <= k < |Keywords| && 0 <= i <= |s| && WholeWordAt(s, Keywords[k], i)
  }

  lemma KeywordContained(s: string)
    ensures (exists k, i :: 0 <= k < |Keywords| && 0 <= i <= |s| && WholeWordAt(s, Keywords[k], i))
      ==> exists k :: 0 <= k < |Keywords| && Contains(s, Keywords[k])
  {
    if exists k, i :: 0 <= k < |Keywords| && 0 <= i <= |s| && WholeWordAt(s, Keywords[k], i) {
      var k, i :| 0 <= k < |Keywords| && 0 <= i <= |s| && WholeWordAt(s, Keywords[k], i);
      ContainsAt(s, Keywords[k], i);
    }
  }

  /** A keyword between non-word characters (or the ends of the text) is a match. */
  lemma KeywordAlone(pre: string, k: nat, post: string)
    requires k < |Keywords|
    requires |pre| == 0 || !IsWordChar(pre[|pre| - 1])
    requires |post| == 0 || !IsWordChar(post[0])
    ensures HasKeyword(pre + Keywords[k] + post)
  {
    var s, w, i := pre + Keywords[k] + post, Keywords[k], |pre|;
    assert s[i..i + |w|] == w;
    assert i > 0 ==> s[i - 1] == pre[|pre| - 1];
    assert i + |w| < |s| ==> s[i + |w|] == post[0];
    assert WholeWordAt(s, w, i);
  }

  const Flag: string := "Inconsistent"
  /** "Consistent: Post-processed to ignore non-numerical/temporal inconsistency." */
  const Replacement: string := "Consistent: Post-" + "processed to ignore " + "non-numerical/temporal " + "inconsistency."
  const ErrorVerdict: string := "Error"

  /**
   The post-processing of a verdict: one that says "Inconsistent" without
   naming a numerical or temporal keyword as a whole word is replaced.
   */
  function PostProcess(result: string): (r: string)
    ensures r == result || r == Replacement
    ensures Contains(r, Flag) ==> r == result && HasKeyword(Lower(result))
    ensures !Contains(result, Flag) ==> r == result
    ensures Contains(result, Flag) && HasKeyword(Lower(result)) ==> r == result
  {
    AbsentFirstChar(Replacement, Flag);
    if Contains(result, Flag) && !HasKeyword(Lower(result)) then Replacement else result
  }

  /**
   `\bquantit\b` never matches where "quantity" is written: that keyword
   alternative only matches the bare word "quantit".
   */
  lemma QuantityIsNotAKeyword(s: string, i: int)
    requires OccursAt(s, "quantity", i)
    ensures !WholeWordAt(s, "quantit", i)
  {
    assert s[i + 7] == s[i..i + 8][7] == 'y';
  }

  /** The judge's reply: server check failed, the model call raised, or the model's answer. */
  datatype JudgeReply = ServerDown | ModelError | Answer(content: string)

  /** `check_inconsistency` once the judge has replied. */
  function CheckInconsistency(reply: JudgeReply): (r: string)
    ensures !reply.Answer? ==> r == ErrorVerdict
    ensures reply.Answer? ==> r == PostProcess(Strip(reply.content))
    ensures Contains(r, Flag) ==> reply.Answer? && r == Strip(reply.content) && HasKeyword(Lower(r))
  {
    assert ErrorVerdict[0] == 'E';
    AbsentFirstChar(ErrorVerdict, Flag);
    match reply
    case Answer(content) => PostProcess(Strip(content))
    case _ => ErrorVerdict
  }

  /** A file kept for comparison with its relevant entries. */
  datatype FileLines = FileLines(path: string, entries: seq<Entry>)

  /** The relevant entries of one file. */
  function RelevantOf(path: string, read: string -> Option<seq<string>>): seq<Entry> {
    RelevantEntries(ExtractContent(path, read(path)), IsRelevant)
  }

  function PathOf(f: FileLines): string {
    f.path
  }

  /** The files the comparison keeps: those with at least one relevant entry. */
  function HasEntries(relevant: string -> seq<Entry>): string -> bool {
    p => relevant(p) != []
  }

  /**
   The `file_contents` dictionary in insertion order: the files, among
   `paths`, for which `relevant` gives at least one entry.
   */
  function Table(paths: seq<string>, relevant: string -> seq<Entry>): (t: seq<FileLines>)
    ensures |t| <= |paths|
    ensures forall k :: 0 <= k < |t| ==>
      t[k].path in paths && t[k].entries == relevant(t[k].path) && t[k].entries != []
    ensures Distinct(paths) ==> forall k, l :: 0 <= k < l < |t| ==> t[k].path != t[l].path
  {
    if |paths| == 0 then []
    else
      var rest := Table(paths[1..], relevant);
      var es := relevant(paths[0]);
      if es != [] then
        assert Distinct(paths) ==> forall k :: 0 <= k < |rest| ==> rest[k].path != paths[0];
        [FileLines(paths[0], es)] + rest
      else rest
  }

  /** The table's files are exactly the paths with a relevant entry, in the order of `paths`. */
  lemma {:induction false} TablePaths(paths: seq<string>, relevant: string -> seq<Entry>)
    ensures Map(PathOf, Table(paths, relevant)) == Filter(HasEntries(relevant), paths)
  {
    if |paths| > 0 {
      TablePaths(paths[1..], relevant);
      var rest := Table(paths[1..], relevant);
      if relevant(paths[0]) != [] {
        assert Map(PathOf, [FileLines(paths[0], relevant(paths[0]))] + rest) == [paths[0]] + Map(PathOf, rest);
      }
    }
  }

  /** Over distinct paths, the table lists its files in the order of `paths`. */
  lemma {:induction false} TableOrdered(paths: seq<string>, relevant: string -> seq<Entry>)
    requires Distinct(paths)
    ensures forall k, l :: 0 <= k < l < |Table(paths, relevant)| ==>
      FirstIndex(paths, Table(paths, relevant)[k].path) < FirstIndex(paths, Table(paths, relevant)[l].path)
  {
    if |paths| > 0 {
      var tail := paths[1..];
      var rest := Table(tail, relevant);
      assert Distinct(tail) by {
        forall i, j | 0 <= i < j < |tail| ensures tail[i] != tail[j] {
          assert tail[i] == paths[i + 1] && tail[j] == paths[j + 1];
        }
      }
      TableOrdered(tail, relevant);
      TailRanks(paths, rest);
      var es := relevant(paths[0]);
      if es != [] {
        var t := [FileLines(paths[0], es)] + rest;
        assert Table(paths, relevant) == t;
        forall k, l | 0 <= k < l < |t| ensures FirstIndex(paths, t[k].path) < FirstIndex(paths, t[l].path) {
          assert t[l] == rest[l - 1];
          if k > 0 {
            assert t[k] == rest[k - 1];
          } else {
            assert t[k].path == paths[0] && FirstIndex(paths, paths[0]) == 0;
          }
        }
      } else {
        assert Table(paths, relevant) == rest;
      }
    }
  }

  /** Files taken from the later paths keep their order, one place further on, among all the paths. */
  lemma TailRanks(paths: seq<string>, rest: seq<FileLines>)
    requires |paths| > 0 && Distinct(paths)
    requires forall k :: 0 <= k < |rest| ==> rest[k].path in paths[1..]
    ensures forall k :: 0 <= k < |rest| ==>
      rest[k].path in paths && FirstIndex(paths, rest[k].path) == 1 + FirstIndex(paths[1..], rest[k].path)
  {
    forall k | 0 <= k < |rest|
      ensures rest[k].path in paths && FirstIndex(paths, rest[k].path) == 1 + FirstIndex(paths[1..], rest[k].path)
    {
      var d := FirstIndex(paths[1..], rest[k].path);
      assert paths[d + 1] == rest[k].path != paths[0];
      FirstIndexTail(paths, rest[k].path);
    }
  }

  /**
   Over the deduplicated matches of the glob, the files come in the order
   their paths were first matched.
   */
  lemma TableFirstSeen(files: seq<string>, relevant: string -> seq<Entry>)
    ensures forall k, l :: 0 <= k < l < |Table(Dedup(files), relevant)| ==>
      FirstIndex(files, Table(Dedup(files), relevant)[k].path) < FirstIndex(files, Table(Dedup(files), relevant)[l].path)
  {
    var d := Dedup(files);
    var t := Table(d, relevant);
    TableOrdered(d, relevant);
    forall k, l | 0 <= k < l < |t| ensures FirstIndex(files, t[k].path) < FirstIndex(files, t[l].path) {
      DedupOrder(files, t[k].path, t[l].path);
    }
  }

  /** A file with a relevant line is never skipped. */
  lemma {:induction false} TableKeeps(paths: seq<string>, relevant: string -> seq<Entry>, i: nat)
    requires i < |paths| && relevant(paths[i]) != []
    ensures FileLines(paths[i], relevant(paths[i])) in Table(paths, relevant)
  {
    if i > 0 {
      assert paths[1..][i - 1] == paths[i];
      TableKeeps(paths[1..], relevant, i - 1);
    }
  }

  /** One call of the judge and its post-processed verdict. */
  datatype Verdict = Verdict(file1: string, first: Entry, file2: string, second: Entry, explanation: string)

  /** The post-processed verdict on two lines, given both files and both line numbers. */
  type Check = (string, Entry, string, Entry) -> string

  /** `v` compares a line of an earlier file of `t` with a line of a later one. */
  predicate FromPair(t: seq<FileLines>, v: Verdict) {
    exists i, j :: 0 <= i < j < |t| && t[i].path == v.file1 && t[j].path == v.file2
      && v.first in t[i].entries && v.second in t[j].entries
  }

  /** `v` carries the verdict `check` gives on its pair of lines. */
  predicate Judged(check: Check, v: Verdict) {
    v.explanation == check(v.file1, v.first, v.file2, v.second)
  }

  /** The judge's verdict on line x of file i against line y of file j. */
  function Call(t: seq<FileLines>, i: nat, j: nat, x: nat, y: nat, check: Check): Verdict
    requires i < j < |t| && x < |t[i].entries| && y < |t[j].entries|
  {
    var first, second := t[i].entries[x], t[j].entries[y];
    Verdict(t[i].path, first, t[j].path, second, check(t[i].path, first, t[j].path, second))
  }

  /** Line x of file i against lines b.. of file j. */
  function LineCalls(t: seq<FileLines>, i: nat, j: nat, x: nat, b: nat, check: Check): (r: seq<Verdict>)
    requires i < j < |t| && x < |t[i].entries| && b <= |t[j].entries|
    ensures |r| == |t[j].entries| - b
    ensures forall k :: 0 <= k < |r| ==> r[k] == Call(t, i, j, x, b + k, check)
    decreases |t[j].entries| - b
  {
    if b == |t[j].entries| then []
    else [Call(t, i, j, x, b, check)] + LineCalls(t, i, j, x, b + 1, check)
  }

  /** Each call of one line judges it against a line of a later file. */
  lemma LineCallsSound(t: seq<FileLines>, i: nat, j: nat, x: nat, b: nat, check: Check)
    requires i < j < |t| && x < |t[i].entries| && b <= |t[j].entries|
    ensures Sound(t, check, LineCalls(t, i, j, x, b, check))
  {
    var r := LineCalls(t, i, j, x, b, check);
    forall k | 0 <= k < |r| ensures FromPair(t, r[k]) && Judged(check, r[k]) {
      assert r[k] == Call(t, i, j, x, b + k, check);
      assert t[i].entries[x] in t[i].entries && t[j].entries[b + k] in t[j].entries;
    }
  }

  /** Lines a.. of file i against every line of file j. */
  function PairCalls(t: seq<FileLines>, i: nat, j: nat, a: nat, check: Check): (r: seq<Verdict>)
    requires i < j < |t| && a <= |t[i].entries|
    decreases |t[i].entries| - a
  {
    if a == |t[i].entries| then []
    else LineCalls(t, i, j, a, 0, check) + PairCalls(t, i, j, a + 1, check)
  }

  /** Every verdict of `r` compares a line of an earlier file of `t` with one of a later file, as `check` judges them. */
  predicate Sound(t: seq<FileLines>, check: Check, r: seq<Verdict>) {
    forall k :: 0 <= k < |r| ==> FromPair(t, r[k]) && Judged(check, r[k])
  }

  lemma SoundAppend(t: seq<FileLines>, check: Check, r: seq<Verdict>, s: seq<Verdict>)
    requires Sound(t, check, r) && Sound(t, check, s)
    ensures Sound(t, check, r + s)
  {
    forall k | 0 <= k < |r + s| ensures FromPair(t, (r + s)[k]) && Judged(check, (r + s)[k]) {
      if k < |r| {
        assert (r + s)[k] == r[k];
      } else {
        assert (r + s)[k] == s[k - |r|];
      }
    }
  }

  /** The calls for a pair of files: (n - a) * m of them, n and m being the files' line counts. */
  lemma {:induction false} PairCallsCount(t: seq<FileLines>, i: nat, j: nat, a: nat, check: Check)
    requires i < j < |t| && a <= |t[i].entries|
    ensures |PairCalls(t, i, j, a, check)| == (|t[i].entries| - a) * |t[j].entries|
    decreases |t[i].entries| - a
  {
    if a < |t[i].entries| {
      var n, m := |t[i].entries|, |t[j].entries|;
      var line, rest := LineCalls(t, i, j, a, 0, check), PairCalls(t, i, j, a + 1, check);
      assert |PairCalls(t, i, j, a, check)| == |line| + |rest|;
      PairCallsCount(t, i, j, a + 1, check);
      LinesLeft(n, a, m);
    }
  }

  /** Each call for a pair of files judges a line of file i against one of file j. */
  lemma {:induction false} PairCallsSound(t: seq<FileLines>, i: nat, j: nat, a: nat, check: Check)
    requires i < j < |t| && a <= |t[i].entries|
    ensures Sound(t, check, PairCalls(t, i, j, a, check))
    decreases |t[i].entries| - a
  {
    if a < |t[i].entries| {
      PairCallsSound(t, i, j, a + 1, check);
      LineCallsSound(t, i, j, a, 0, check);
      SoundAppend(t, check, LineCalls(t, i, j, a, 0, check), PairCalls(t, i, j, a + 1, check));
    }
  }

  /**
   `r` lists line x (from a on) of file i against line y of file j as its
   element (x - a) * m + y, m being the later file's line count.
   */
  predicate Grid(r: seq<Verdict>, t: seq<FileLines>, i: nat, j: nat, a: nat, check: Check)
    requires i < j < |t|
  {
    forall x, y :: a <= x < |t[i].entries| && 0 <= y < |t[j].entries| ==> CallAt(r, t, i, j, a, x, y, check)
  }

  /** Element (x - a) * m + y of `r` is the call on line x of file i and line y of file j. */
  predicate CallAt(r: seq<Verdict>, t: seq<FileLines>, i: nat, j: nat, a: nat, x: nat, y: nat, check: Check)
    requires i < j < |t| && a <= x < |t[i].entries| && y < |t[j].entries|
  {
    Times(x - a, |t[j].entries|) + y < |r| && r[Times(x - a, |t[j].entries|) + y] == Call(t, i, j, x, y, check)
  }

  /** `p * m`, counted one row of m calls at a time. */
  function Times(p: nat, m: nat): nat {
    if p == 0 then 0 else m + Times(p - 1, m)
  }

  lemma {:induction false} TimesIsProduct(p: nat, m: nat)
    ensures Times(p, m) == p * m
  {
    if p > 0 {
      TimesIsProduct(p - 1, m);
      MulStep(p - 1, m);
    }
  }

  /**
   The calls for a pair of files run over the lines of the earlier file in
   order, and for each over every line of the later one: line x of file i
   against line y of file j is call (x - a) * m + y, m being the later
   file's line count.
   */
  lemma {:induction false} PairCallsGrid(t: seq<FileLines>, i: nat, j: nat, a: nat, check: Check)
    requires i < j < |t| && a <= |t[i].entries|
    ensures Grid(PairCalls(t, i, j, a, check), t, i, j, a, check)
  {
    forall x, y | a <= x < |t[i].entries| && 0 <= y < |t[j].entries|
      ensures CallAt(PairCalls(t, i, j, a, check), t, i, j, a, x, y, check)
    {
      PairCallAt(t, i, j, a, x, y, check);
    }
  }

  /** Line x of file i against line y of file j, at its place among the calls from line a on. */
  lemma {:induction false} PairCallAt(t: seq<FileLines>, i: nat, j: nat, a: nat, x: nat, y: nat, check: Check)
    requires i < j < |t| && a <= x < |t[i].entries| && y < |t[j].entries|
    ensures CallAt(PairCalls(t, i, j, a, check), t, i, j, a, x, y, check)
    decreases x - a
  {
    if x == a {
      FirstLineCall(t, i, j, a, y, check);
    } else {
      PairCallAt(t, i, j, a + 1, x, y, check);
      LaterLineCall(t, i, j, a, x, y, check);
    }
  }

  lemma FirstLineCall(t: seq<FileLines>, i: nat, j: nat, a: nat, y: nat, check: Check)
    requires i < j < |t| && a < |t[i].entries| && y < |t[j].entries|
    ensures CallAt(PairCalls(t, i, j, a, check), t, i, j, a, a, y, check)
  {
    var line := LineCalls(t, i, j, a, 0, check);
    var r := PairCalls(t, i, j, a, check);
    assert Times(0, |t[j].entries|) == 0;
    assert r[y] == line[y];
  }

  lemma LaterLineCall(t: seq<FileLines>, i: nat, j: nat, a: nat, x: nat, y: nat, check: Check)
    requires i < j < |t| && a < x < |t[i].entries| && y < |t[j].entries|
    requires CallAt(PairCalls(t, i, j, a + 1, check), t, i, j, a + 1, x, y, check)
    ensures CallAt(PairCalls(t, i, j, a, check), t, i, j, a, x, y, check)
  {
    var m := |t[j].entries|;
    var line, rest := LineCalls(t, i, j, a, 0, check), PairCalls(t, i, j, a + 1, check);
    var r := PairCalls(t, i, j, a, check);
    var k := Times(x - (a + 1), m) + y;
    assert Times(x - a, m) + y == m + k;
    assert r[m + k] == rest[k];
  }

  lemma Distribute(n: int, a: int, b: int)
    ensures n * (a + b) == n * a + n * b
  {
  }

  /** Lines a.. of a file of n lines are line a and lines a + 1.. . */
  lemma LinesLeft(n: nat, a: nat, m: nat)
    requires a < n
    ensures (n - a) * m == m + (n - (a + 1)) * m
  {
    var p := n - (a + 1);
    assert n - a == p + 1;
    MulStep(p, m);
  }

  lemma MulStep(p: nat, m: nat)
    ensures (p + 1) * m == m + p * m
  {
  }

  /** The number of entries of files j.. */
  function EntryCount(t: seq<FileLines>, j: nat): nat
    requires j <= |t|
    decreases |t| - j
  {
    if j == |t| then 0 else |t[j].entries| + EntryCount(t, j + 1)
  }

  /** File i against files j.. */
  function RowCalls(t: seq<FileLines>, i: nat, j: nat, check: Check): (r: seq<Verdict>)
    requires i < j <= |t|
    decreases |t| - j
  {
    if j == |t| then []
    else PairCalls(t, i, j, 0, check) + RowCalls(t, i, j + 1, check)
  }

  /** File i is compared n * (lines of files j..) times, n being its own line count. */
  lemma {:induction false} RowCallsCount(t: seq<FileLines>, i: nat, j: nat, check: Check)
    requires i < j <= |t|
    ensures |RowCalls(t, i, j, check)| == |t[i].entries| * EntryCount(t, j)
    decreases |t| - j
  {
    if j < |t| {
      var n := |t[i].entries|;
      var pair, rest := PairCalls(t, i, j, 0, check), RowCalls(t, i, j + 1, check);
      assert |RowCalls(t, i, j, check)| == |pair| + |rest|;
      PairCallsCount(t, i, j, 0, check);
      RowCallsCount(t, i, j + 1, check);
      Distribute(n, |t[j].entries|, EntryCount(t, j + 1));
    }
  }

  /** Each call of file i against files j.. judges a line of file i against one of a later file. */
  lemma {:induction false} RowCallsSound(t: seq<FileLines>, i: nat, j: nat, check: Check)
    requires i < j <= |t|
    ensures Sound(t, check, RowCalls(t, i, j, check))
    decreases |t| - j
  {
    if j < |t| {
      PairCallsSound(t, i, j, 0, check);
      RowCallsSound(t, i, j + 1, check);
      SoundAppend(t, check, PairCalls(t, i, j, 0, check), RowCalls(t, i, j + 1, check));
    }
  }

  /**
   `combinations(file_contents.keys(), 2)` from file i on: every file against
   every later file, each pair once, in first-seen order.
   */
  function AllCalls(t: seq<FileLines>, i: nat, check: Check): (r: seq<Verdict>)
    requires i <= |t|
    ensures |t| - i < 2 ==> r == []
    decreases |t| - i
  {
    if i == |t| then []
    else RowCalls(t, i, i + 1, check) + AllCalls(t, i + 1, check)
  }

  /** `AllCalls` makes one call per pair of lines from two different files: `CrossCount` of them. */
  lemma {:induction false} CallCount(t: seq<FileLines>, i: nat, check: Check)
    requires i <= |t|
    ensures |AllCalls(t, i, check)| == CrossCount(t, i)
    decreases |t| - i
  {
    if i < |t| {
      CallCount(t, i + 1, check);
      RowCallsCount(t, i, i + 1, check);
      TimesIsProduct(|t[i].entries|, EntryCount(t, i + 1));
      assert |AllCalls(t, i, check)| == |RowCalls(t, i, i + 1, check)| + |AllCalls(t, i + 1, check)|;
    }
  }

  /** Only lines of two different files, the earlier one first, are compared, and each call carries its verdict. */
  lemma {:induction false} AllCallsSound(t: seq<FileLines>, i: nat, check: Check)
    requires i <= |t|
    ensures Sound(t, check, AllCalls(t, i, check))
    decreases |t| - i
  {
    if i < |t| {
      RowCallsSound(t, i, i + 1, check);
      AllCallsSound(t, i + 1, check);
      SoundAppend(t, check, RowCalls(t, i, i + 1, check), AllCalls(t, i + 1, check));
    }
  }

  /** Every pair of lines of file i and a file j at or after j0 is judged by `RowCalls(t, i, j0, _)`. */
  lemma {:induction false} RowCallsCover(t: seq<FileLines>, i: nat, j0: nat, j: nat, x: nat, y: nat, check: Check)
      returns (k: nat)
    requires i < j0 <= j < |t| && x < |t[i].entries| && y < |t[j].entries|
    ensures k < |RowCalls(t, i, j0, check)| && RowCalls(t, i, j0, check)[k] == Call(t, i, j, x, y, check)
    decreases j - j0
  {
    var row, pair, rest := RowCalls(t, i, j0, check), PairCalls(t, i, j0, 0, check), RowCalls(t, i, j0 + 1, check);
    if j0 == j {
      PairCallAt(t, i, j, 0, x, y, check);
      k := Times(x, |t[j].entries|) + y;
      assert k < |pair| && pair[k] == Call(t, i, j, x, y, check);
      assert row[k] == pair[k];
    } else {
      var l := RowCallsCover(t, i, j0 + 1, j, x, y, check);
      k := |pair| + l;
      assert row[k] == rest[l];
    }
  }

  /** Every pair of lines from two different files at or after file i0 is judged by `AllCalls(t, i0, _)`. */
  lemma {:induction false} AllCallsCover(t: seq<FileLines>, i0: nat, i: nat, j: nat, x: nat, y: nat, check: Check)
      returns (k: nat)
    requires i0 <= i < j < |t| && x < |t[i].entries| && y < |t[j].entries|
    ensures k < |AllCalls(t, i0, check)| && AllCalls(t, i0, check)[k] == Call(t, i, j, x, y, check)
  {
    var m := RowCallsCover(t, i, i + 1, j, x, y, check);
    k := AllCallsFrom(t, i0, i, m, Call(t, i, j, x, y, check), check);
  }

  /** A check of file i against the later files is also made by `AllCalls(t, i0, _)` for any i0 <= i. */
  lemma {:induction false} AllCallsFrom(t: seq<FileLines>, i0: nat, i: nat, m: nat, v: Verdict, check: Check)
      returns (k: nat)
    requires i0 <= i < |t| && m < |RowCalls(t, i, i + 1, check)| && RowCalls(t, i, i + 1, check)[m] == v
    ensures k < |AllCalls(t, i0, check)| && AllCalls(t, i0, check)[k] == v
    decreases i - i0, 1
  {
    if i0 == i {
      AllCallsHead(t, i0, m, v, check);
      k := m;
    } else {
      k := AllCallsLater(t, i0, i, m, v, check);
    }
  }

  /** The step of `AllCallsFrom` for i0 < i: the check comes after file i0's own. */
  lemma {:induction false} AllCallsLater(t: seq<FileLines>, i0: nat, i: nat, m: nat, v: Verdict, check: Check)
      returns (k: nat)
    requires i0 < i < |t| && m < |RowCalls(t, i, i + 1, check)| && RowCalls(t, i, i + 1, check)[m] == v
    ensures k < |AllCalls(t, i0, check)| && AllCalls(t, i0, check)[k] == v
    decreases i - i0, 0
  {
    var l := AllCallsFrom(t, i0 + 1, i, m, v, check);
    k := AllCallsRest(t, i0, l, v, check);
  }

  /** The calls from file i0 on start with those of file i0 against the later files. */
  lemma AllCallsHead(t: seq<FileLines>, i0: nat, k: nat, v: Verdict, check: Check)
    requires i0 < |t| && k < |RowCalls(t, i0, i0 + 1, check)| && RowCalls(t, i0, i0 + 1, check)[k] == v
    ensures k < |AllCalls(t, i0, check)| && AllCalls(t, i0, check)[k] == v
  {
  }

  /** After those come the calls from file i0 + 1 on. */
  lemma AllCallsRest(t: seq<FileLines>, i0: nat, l: nat, v: Verdict, check: Check) returns (k: nat)
    requires i0 < |t| && l < |AllCalls(t, i0 + 1, check)| && AllCalls(t, i0 + 1, check)[l] == v
    ensures k < |AllCalls(t, i0, check)| && AllCalls(t, i0, check)[k] == v
  {
    k := |RowCalls(t, i0, i0 + 1, check)| + l;
  }

  /** Sum of squares of the entry counts of files j.. */
  function SquareCount(t: seq<FileLines>, j: nat): nat
    requires j <= |t|
    decreases |t| - j
  {
    if j == |t| then 0 else |t[j].entries| * |t[j].entries| + SquareCount(t, j + 1)
  }

  /**
   One more file of n lines, ahead of files with e lines in all (s the sum
   of their squares, c the calls among them), adds n * e calls.
   */
  lemma CountStep(n: int, e: int, s: int, c: int, lines: int, squares: int, calls: int)
    requires 2 * c == e * e - s
    requires lines == n + e && squares == n * n + s && calls == n * e + c
    ensures 2 * calls == lines * lines - squares
  {
    assert lines * lines == (n + e) * (n + e) == n * n + 2 * (n * e) + e * e;
  }

  /**
   The number of pairs of lines from two different files among files i..:
   sum over i <= f < g of n_f * n_g, each product counted by `Times`.
   */
  function CrossCount(t: seq<FileLines>, i: nat): nat
    requires i <= |t|
    decreases |t| - i
  {
    if i == |t| then 0 else Times(|t[i].entries|, EntryCount(t, i + 1)) + CrossCount(t, i + 1)
  }

  /**
   With n_1..n_m relevant lines per file, the pairs of lines from different
   files number ((sum n)^2 - sum n^2) / 2.
   */
  lemma {:induction false} CrossCountSquares(t: seq<FileLines>, i: nat)
    requires i <= |t|
    ensures 2 * CrossCount(t, i) == EntryCount(t, i) * EntryCount(t, i) - SquareCount(t, i)
    decreases |t| - i
  {
    if i < |t| {
      CrossCountSquares(t, i + 1);
      var n, rest := |t[i].entries|, EntryCount(t, i + 1);
      TimesIsProduct(n, rest);
      CountStep(n, rest, SquareCount(t, i + 1), CrossCount(t, i + 1), EntryCount(t, i), SquareCount(t, i), CrossCount(t, i));
    }
  }

  /** The verdicts reported: those that contain "Inconsistent". */
  predicate IsFlagged(v: Verdict) {
    Contains(v.explanation, Flag)
  }

  /** `check_inconsistency` on the judge's reply for a pair of lines. */
  function Judging(judge: (string, Entry, string, Entry) -> JudgeReply): Check {
    (f1, e1, f2, e2) => CheckInconsistency(judge(f1, e1, f2, e2))
  }

  datatype Outcome =
    | ServerNotRunning
    | NoFiles
    | TooFewFiles(table: seq<FileLines>)
    | Compared(table: seq<FileLines>, calls: seq<Verdict>, reports: seq<Verdict>)

  /**
   `find_inconsistencies`: `serverUp` is the first server check, `files`
   what `glob` returned, `read` the file readers and `judge` the model.
   */
  function FindInconsistencies(serverUp: bool, files: seq<string>, read: string -> Option<seq<string>>,
                               judge: (string, Entry, string, Entry) -> JudgeReply): (o: Outcome)
    ensures o.ServerNotRunning? <==> !serverUp
    ensures o.NoFiles? <==> serverUp && |files| == 0
    ensures o.TooFewFiles? ==> |o.table| < 2
    ensures o.Compared? <==> serverUp && |files| > 0 && |Table(Dedup(files), p => RelevantOf(p, read))| >= 2
    ensures (o.TooFewFiles? || o.Compared?) ==> o.table == Table(Dedup(files), p => RelevantOf(p, read))
    ensures o.Compared? ==> |o.table| >= 2
    ensures o.Compared? ==> forall k, l :: 0 <= k < l < |o.table| ==> o.table[k].path != o.table[l].path
    ensures o.Compared? ==> |o.reports| <= |o.calls|
    ensures o.Compared? ==>
      2 * |o.calls| == EntryCount(o.table, 0) * EntryCount(o.table, 0) - SquareCount(o.table, 0)
    ensures o.Compared? ==> forall k :: 0 <= k < |o.reports| ==> o.reports[k] in o.calls && IsFlagged(o.reports[k])
    ensures o.Compared? ==> forall k :: 0 <= k < |o.calls| ==>
      (o.calls[k].explanation == CheckInconsistency(judge(o.calls[k].file1, o.calls[k].first, o.calls[k].file2, o.calls[k].second))
      && FromPair(o.table, o.calls[k]))
    ensures o.Compared? ==> forall k :: 0 <= k < |o.calls| && IsFlagged(o.calls[k]) ==>
      HasKeyword(Lower(o.calls[k].explanation))
  {
    if !serverUp then ServerNotRunning
    else if |files| == 0 then NoFiles
    else
      var t := Table(Dedup(files), p => RelevantOf(p, read));
      if |t| < 2 then TooFewFiles(t)
      else
        var check := Judging(judge);
        var calls := AllCalls(t, 0, check);
        CallCount(t, 0, check);
        CrossCountSquares(t, 0);
        AllCallsSound(t, 0, check);
        Compared(t, calls, Filter(IsFlagged, calls))
  }

  /** Every check whose verdict contains "Inconsistent" is reported. */
  lemma FlaggedReported(serverUp: bool, files: seq<string>, read: string -> Option<seq<string>>,
                        judge: (string, Entry, string, Entry) -> JudgeReply, k: nat)
    requires FindInconsistencies(serverUp, files, read, judge).Compared?
    requires k < |FindInconsistencies(serverUp, files, read, judge).calls|
    requires IsFlagged(FindInconsistencies(serverUp, files, read, judge).calls[k])
    ensures var o := FindInconsistencies(serverUp, files, read, judge);
      o.calls[k] in o.reports
  {
    var o := FindInconsistencies(serverUp, files, read, judge);
    assert o.reports == Filter(IsFlagged, o.calls);
    FilterKeeps(IsFlagged, o.calls, k);
  }

  /**
   Every pair of relevant lines from two different kept files is judged once
   with the earlier file first: the comparison leaves no pair out.
   */
  lemma ComparedCovers(serverUp: bool, files: seq<string>, read: string -> Option<seq<string>>,
                       judge: (string, Entry, string, Entry) -> JudgeReply, i: nat, j: nat, x: nat, y: nat)
    requires FindInconsistencies(serverUp, files, read, judge).Compared?
    requires var t := FindInconsistencies(serverUp, files, read, judge).table;
      i < j < |t| && x < |t[i].entries| && y < |t[j].entries|
    ensures var o := FindInconsistencies(serverUp, files, read, judge);
      Call(o.table, i, j, x, y, Judging(judge)) in o.calls
  {
    var o := FindInconsistencies(serverUp, files, read, judge);
    assert o.calls == AllCalls(o.table, 0, Judging(judge));
    var k := AllCallsCover(o.table, 0, i, j, x, y, Judging(judge));
    assert o.calls[k] == Call(o.table, i, j, x, y, Judging(judge));
  }
}
