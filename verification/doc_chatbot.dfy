/**
 The document chatbot: the files named on the command line are read
 (`.txt` as is, `.docx` as its non-blank paragraphs, `.csv` as one rendered
 line per row), combined into one context, and every question typed in is
 answered by a local model from that context alone.
 */
module DocChatbot {
  import opened Wrappers
  import opened Text
  import opened Paths
  import opened Sequences
  import opened ChatInput

  // ---------------------------------------------------------------------
  // Readers
  // ---------------------------------------------------------------------

  /** The extensions `read_documents` accepts (compared after lower-casing). */
  const Extensions: set<string> := {".txt", ".docx", ".csv"}

  /** One `col: val` item of a CSV row, as `row.items()` yields it. */
  function Item(cell: (string, string)): string {
    cell.0 + ": " + cell.1
  }

  /** The label that starts the rendering of the row at 0-based position `i`. */
  function RowLabel(i: nat): (r: string)
    ensures StartsWith(r, "Row ") && r[|r| - 2..] == ": "
  {
    "Row " + NatToString(i + 1) + ": "
  }

  /** `f"Row {index + 1}: {row_str}"` for a row of (column, value) items. */
  function RenderRow(i: nat, row: seq<(string, string)>): string {
    RowLabel(i) + Join(", ", Map(Item, row))
  }

  /**
   The rendered rows from position `i` on. A row's position is its index in
   the frame, which `pd.read_csv` numbers 0, 1, 2, ... by default.
   */
  function RenderRowsFrom(rows: seq<seq<(string, string)>>, i: nat): (r: seq<string>)
    requires i <= |rows|
    ensures |r| == |rows| - i
    ensures forall k :: 0 <= k < |r| ==> r[k] == RenderRow(i + k, rows[i + k])
    decreases |rows| - i
  {
    if i == |rows| then [] else [RenderRow(i, rows[i])] + RenderRowsFrom(rows, i + 1)
  }

  /**
   `read_csv_file` on a frame that `pd.read_csv` produced: one line per row,
   so the text is empty exactly when the frame has no rows.
   */
  function CsvText(rows: seq<seq<(string, string)>>): (r: string)
    ensures r == "" <==> |rows| == 0
    ensures |rows| > 0 && NoNewlines(rows) ==> SplitOn(r, '\n') == RenderRowsFrom(rows, 0)
  {
    var lines := RenderRowsFrom(rows, 0);
    assert forall k :: 0 <= k < |lines| ==> |lines[k]| >= |RowLabel(k)| > 0;
    JoinNonEmptyParts("\n", lines);
    if |rows| > 0 && NoNewlines(rows) then
      RowsAvoidNewline(rows);
      JoinSplitOn('\n', lines);
      Join("\n", lines)
    else Join("\n", lines)
  }

  /** No column name or value holds a newline. */
  predicate NoNewlines(rows: seq<seq<(string, string)>>) {
    forall i, j :: 0 <= i < |rows| && 0 <= j < |rows[i]| ==> '\n' !in rows[i][j].0 && '\n' !in rows[i][j].1
  }

  lemma RowsAvoidNewline(rows: seq<seq<(string, string)>>)
    requires NoNewlines(rows)
    ensures forall k :: 0 <= k < |rows| ==> '\n' !in RenderRowsFrom(rows, 0)[k]
  {
    forall k | 0 <= k < |rows| ensures '\n' !in RenderRowsFrom(rows, 0)[k] {
      var items := Map(Item, rows[k]);
      forall m | 0 <= m < |items| ensures '\n' !in items[m] {
        assert items[m] == rows[k][m].0 + ": " + rows[k][m].1;
      }
      JoinAvoids(", ", items, '\n');
      var head := RowLabel(k);
      assert head == "Row " + NatToString(k + 1) + ": ";
      assert '\n' !in NatToString(k + 1);
      assert RenderRowsFrom(rows, 0)[k] == head + Join(", ", items);
    }
  }

  /**
   The row number in a rendered row reads back as the 1-based position of
   the row: the digits after "Row " and before the first ':' are `i + 1`.
   */
  lemma RowNumberRoundTrip(i: nat, row: seq<(string, string)>)
    ensures var s, d := RenderRow(i, row), |NatToString(i + 1)|;
      && 4 + d + 2 <= |s| && s[..4] == "Row " && s[4 + d] == ':'
      && (forall k :: 4 <= k < 4 + d ==> IsDigit(s[k]))
      && ParseNat(s[4..4 + d]) == i + 1
  {
    var s, n := RenderRow(i, row), NatToString(i + 1);
    assert s == "Row " + n + ": " + Join(", ", Map(Item, row));
    assert s[4..4 + |n|] == n;
    assert s[4 + |n|] == ':';
    NatToStringRoundTrip(i + 1);
  }

  /** Distinct rows carry distinct row numbers. */
  lemma RowLabelsDistinct(i: nat, j: nat)
    requires i != j
    ensures RowLabel(i) != RowLabel(j)
  {
    var a, b := NatToString(i + 1), NatToString(j + 1);
    if RowLabel(i) == RowLabel(j) {
      assert |a| == |b|;
      assert a == RowLabel(i)[4..4 + |a|] == RowLabel(j)[4..4 + |b|] == b;
      NatToStringInjective(i + 1, j + 1);
    }
  }

  /** `"\n".join(para.text for para in doc.paragraphs if para.text.strip())` */
  function DocxText(paragraphs: seq<string>): (r: string)
    ensures r == "" <==> forall k :: 0 <= k < |paragraphs| ==> Strip(paragraphs[k]) == ""
  {
    var kept := Filter(NotBlank, paragraphs);
    JoinNonEmptyParts("\n", kept);
    KeptBlank(paragraphs);
    Join("\n", kept)
  }

  /** Only a document whose paragraphs are all blank keeps none of them. */
  lemma KeptBlank(paragraphs: seq<string>)
    ensures Filter(NotBlank, paragraphs) == [] <==> forall k :: 0 <= k < |paragraphs| ==> Strip(paragraphs[k]) == ""
  {
    var kept := Filter(NotBlank, paragraphs);
    if kept == [] {
      forall k | 0 <= k < |paragraphs| ensures Strip(paragraphs[k]) == "" {
        if Strip(paragraphs[k]) != "" {
          FilterKeeps(NotBlank, paragraphs, k);
        }
      }
    } else {
      assert NotBlank(kept[0]) && kept[0] in paragraphs;
    }
  }

  predicate NotBlank(s: string) {
    Strip(s) != ""
  }

  /**
   When no paragraph holds a line break, the lines of the text are exactly
   the non-blank paragraphs, in document order.
   */
  lemma DocxParagraphs(paragraphs: seq<string>)
    requires forall k :: 0 <= k < |paragraphs| ==> '\n' !in paragraphs[k]
    requires DocxText(paragraphs) != ""
    ensures SplitOn(DocxText(paragraphs), '\n') == Filter(NotBlank, paragraphs)
  {
    var kept := Filter(NotBlank, paragraphs);
    KeptBlank(paragraphs);
    JoinSplitOn('\n', kept);
  }

  /**
   What the readers find on disk: whether a path exists, and what each
   reader library returns for it (None where it raises, after which the
   reader returns "").
   */
  datatype Disk = Disk(
    exists_: string -> bool,
    txt: string -> Option<string>,
    docx: string -> Option<seq<string>>,
    csv: string -> Option<seq<seq<(string, string)>>>)

  /**
   The text read from one path: "" for a missing file, an unsupported
   extension or a reader error.
   */
  function Load(path: string, disk: Disk): (r: string)
    ensures !disk.exists_(path) || Lower(SplitExt(path)) !in Extensions ==> r == ""
    ensures disk.exists_(path) && Lower(SplitExt(path)) == ".txt" ==>
      r == (match disk.txt(path) case Some(t) => t case None => "")
    ensures disk.exists_(path) && Lower(SplitExt(path)) == ".docx" ==>
      r == (match disk.docx(path) case Some(ps) => DocxText(ps) case None => "")
    ensures disk.exists_(path) && Lower(SplitExt(path)) == ".csv" ==>
      r == (match disk.csv(path) case Some(rows) => CsvText(rows) case None => "")
  {
    var ext := Lower(SplitExt(path));
    if !disk.exists_(path) || ext !in Extensions then ""
    else if ext == ".txt" then (match disk.txt(path) case Some(t) => t case None => "")
    else if ext == ".docx" then (match disk.docx(path) case Some(ps) => DocxText(ps) case None => "")
    else (match disk.csv(path) case Some(rows) => CsvText(rows) case None => "")
  }

  // ---------------------------------------------------------------------
  // The combined context
  // ---------------------------------------------------------------------

  /** A file that contributed text: its position among the paths and the text. */
  datatype Source = Source(pos: nat, text: string)

  /** The files from position `i` on whose loaded text is not empty, in argument order. */
  function SourcesFrom(paths: seq<string>, i: nat, load: string -> string): (r: seq<Source>)
    requires i <= |paths|
    ensures forall k :: 0 <= k < |r| ==>
      i <= r[k].pos < |paths| && r[k].text == load(paths[r[k].pos]) && r[k].text != ""
    ensures forall k, l :: 0 <= k < l < |r| ==> r[k].pos < r[l].pos
    decreases |paths| - i
  {
    if i == |paths| then []
    else
      var rest := SourcesFrom(paths, i + 1, load);
      var t := load(paths[i]);
      if t != "" then [Source(i, t)] + rest else rest
  }

  /** No file with text is left out. */
  lemma {:induction false} SourcesKeep(paths: seq<string>, i: nat, load: string -> string, p: nat)
    requires i <= p < |paths| && load(paths[p]) != ""
    ensures Source(p, load(paths[p])) in SourcesFrom(paths, i, load)
    decreases p - i
  {
    if i < p {
      SourcesKeep(paths, i + 1, load, p);
    }
  }

  const SectionOpen: string := "--- Content from "
  const SectionClose: string := " ---\n"

  /** `f"--- Content from {path} ---\n{text}"` */
  function Headed(path: string, text: string): (r: string)
    ensures r != ""
  {
    SectionOpen + path + SectionClose + text
  }

  function Section(paths: seq<string>, s: Source): string
    requires s.pos < |paths|
  {
    Headed(paths[s.pos], s.text)
  }

  function Sections(paths: seq<string>, sources: seq<Source>): (r: seq<string>)
    requires forall k :: 0 <= k < |sources| ==> sources[k].pos < |paths|
    ensures |r| == |sources| && forall k :: 0 <= k < |r| ==> r[k] == Section(paths, sources[k])
  {
    if |sources| == 0 then [] else [Section(paths, sources[0])] + Sections(paths, sources[1..])
  }

  /** The reader applied to every path: `Load` against one disk. */
  function Loader(disk: Disk): string -> string {
    p => Load(p, disk)
  }

  /** `read_documents`: the sections of the files with text, joined by a blank line. */
  function ReadDocuments(paths: seq<string>, disk: Disk): (context: string)
    ensures context == "" <==> |SourcesFrom(paths, 0, Loader(disk))| == 0
  {
    var sources := SourcesFrom(paths, 0, Loader(disk));
    var sections := Sections(paths, sources);
    JoinNonEmptyParts("\n\n", sections);
    Join("\n\n", sections)
  }

  /** One more path adds its section, after a blank line, when it yields text; otherwise nothing. */
  lemma ReadDocumentsAppend(paths: seq<string>, path: string, disk: Disk)
    ensures var before, text := ReadDocuments(paths, disk), Load(path, disk);
      ReadDocuments(paths + [path], disk) ==
        if text == "" then before
        else if before == "" then Headed(path, text)
        else before + "\n\n" + Headed(path, text)
  {
    var load, all := Loader(disk), paths + [path];
    var sources := SourcesFrom(paths, 0, load);
    SourcesAppend(paths, path, 0, load);
    SectionsPrefix(paths, all, sources);
    var sections := Sections(paths, sources);
    assert ReadDocuments(paths, disk) == Join("\n\n", sections);
    var text := Load(path, disk);
    assert load(path) == text;
    if text == "" {
      assert sources + [] == sources;
      assert ReadDocuments(all, disk) == Join("\n\n", Sections(all, sources));
    } else {
      var src := Source(|paths|, text);
      SectionsAppend(all, sources, src);
      assert Section(all, src) == Headed(path, text);
      assert ReadDocuments(all, disk) == Join("\n\n", sections + [Headed(path, text)]);
      JoinSnoc("\n\n", sections, Headed(path, text));
    }
  }

  /** Joining one more part: the part alone after nothing, otherwise after a separator. */
  lemma JoinSnoc(sep: string, xs: seq<string>, x: string)
    ensures Join(sep, xs + [x]) == if |xs| == 0 then x else Join(sep, xs) + sep + x
  {
    if |xs| == 0 {
      assert xs + [x] == [x];
    } else {
      JoinAppend(sep, xs, x);
    }
  }

  /** A path appended to the list adds its source, if it has text, at the end. */
  lemma {:induction false} SourcesAppend(paths: seq<string>, path: string, i: nat, load: string -> string)
    requires i <= |paths|
    ensures SourcesFrom(paths + [path], i, load) ==
      SourcesFrom(paths, i, load) + (if load(path) != "" then [Source(|paths|, load(path))] else [])
    decreases |paths| - i
  {
    var all := paths + [path];
    if i < |paths| {
      SourcesAppend(paths, path, i + 1, load);
      assert all[i] == paths[i];
    }
  }

  /** Sections only look at the paths their sources point to. */
  lemma SectionsPrefix(paths: seq<string>, all: seq<string>, sources: seq<Source>)
    requires |paths| <= |all| && all[..|paths|] == paths
    requires forall k :: 0 <= k < |sources| ==> sources[k].pos < |paths|
    ensures Sections(all, sources) == Sections(paths, sources)
  {
    var a, b := Sections(all, sources), Sections(paths, sources);
    forall k | 0 <= k < |sources| ensures a[k] == b[k] {
      assert all[sources[k].pos] == paths[sources[k].pos];
    }
  }

  lemma SectionsAppend(paths: seq<string>, sources: seq<Source>, s: Source)
    requires forall k :: 0 <= k < |sources| ==> sources[k].pos < |paths|
    requires s.pos < |paths|
    ensures Sections(paths, sources + [s]) == Sections(paths, sources) + [Section(paths, s)]
  {
    var a, b := Sections(paths, sources + [s]), Sections(paths, sources) + [Section(paths, s)];
    forall k | 0 <= k < |a| ensures a[k] == b[k] {
      if k < |sources| {
        assert (sources + [s])[k] == sources[k];
      }
    }
  }

  /** The context is empty exactly when no path yields any text. */
  lemma EmptyContext(paths: seq<string>, disk: Disk)
    ensures ReadDocuments(paths, disk) == "" <==> forall p :: 0 <= p < |paths| ==> Load(paths[p], disk) == ""
  {
    var load := Loader(disk);
    if ReadDocuments(paths, disk) == "" {
      forall p | 0 <= p < |paths| ensures Load(paths[p], disk) == "" {
        if load(paths[p]) != "" {
          SourcesKeep(paths, 0, load, p);
        }
      }
    }
  }

  // ---------------------------------------------------------------------
  // Answers
  // ---------------------------------------------------------------------

  const NoInformation: string := "I do not have information for that question."

  /** Answers the model gives when it has nothing to say. */
  const Generic: set<string> := {"unknown", "not provided", "no information"}

  /** The fixed message is itself a non-empty, trimmed, non-generic answer. */
  lemma NoInformationIsAnAnswer()
    ensures NoInformation != "" && Trimmed(NoInformation) && Lower(NoInformation) !in Generic
  {
    assert NoInformation[0] == 'I' && NoInformation[|NoInformation| - 1] == '.';
    assert |Lower(NoInformation)| == |NoInformation| == 44;
  }

  /** The model's reply: it raised, or it generated a response. */
  datatype Reply = ModelFailure | Generated(response: string)

  /** `generate_response` once the model has replied. */
  function Answer(reply: Reply): (r: string)
    ensures r != "" && Trimmed(r) && Lower(r) !in Generic
    ensures r == NoInformation || (reply.Generated? && r == Strip(reply.response))
    ensures reply.ModelFailure? ==> r == NoInformation
    ensures reply.Generated? && Strip(reply.response) != "" && Lower(Strip(reply.response)) !in Generic ==>
      r == Strip(reply.response)
  {
    NoInformationIsAnAnswer();
    match reply
    case ModelFailure => NoInformation
    case Generated(response) =>
      var a := Strip(response);
      if a == "" || Lower(a) in Generic then NoInformation else a
  }

  /** Feeding an answer back as the model's response leaves it unchanged. */
  lemma AnswerIdempotent(reply: Reply)
    ensures Answer(Generated(Answer(reply))) == Answer(reply)
  {
    StripOfTrimmed(Answer(reply));
  }

  datatype Outcome =
    | ServerNotRunning
    | ModelNotInstalled
    | Usage
    | NoContent
    | Chatted(context: string, session: Session<string>)

  const ModelName: string := "llama3.2"

  /** `check_ollama_model`: the model's name appears in the `ollama list` output. */
  predicate Installed(models: Option<string>) {
    models.Some? && Contains(models.value, ModelName)
  }

  /**
   The chat loop over `context`: every question on input line `k` is
   answered from the model's reply `model(question, context, k)`.
   */
  function Converse(context: string, lines: seq<string>, model: (string, string, nat) -> Reply): (s: Session<string>)
    ensures |s.turns| <= |lines|
    ensures forall k :: 0 <= k < |s.turns| && s.turns[k].Answered? ==>
      s.turns[k] == Answered(Strip(lines[k]), Answer(model(Strip(lines[k]), context, k)))
    ensures forall k :: 0 <= k < |s.turns| ==> !Classify(lines[k]).Quit?
    ensures forall k :: 0 <= k < |s.turns| ==> (s.turns[k].Reprompt? <==> Classify(lines[k]).Blank?)
    ensures s.exited ==> |s.turns| < |lines| && Classify(lines[|s.turns|]).Quit?
    ensures !s.exited ==> |s.turns| == |lines|
  {
    Chat(lines, (q, k) => Answer(model(q, context, k)))
  }

  /**
   `main`: `server` and `models` are the outputs of the two `ollama list`
   runs (None when the command fails), `paths` the command-line arguments,
   `lines` the input and `model(question, context, k)` the reply to the
   question on input line `k`.
   */
  function Main(server: Option<string>, models: Option<string>, paths: seq<string>, disk: Disk,
                lines: seq<string>, model: (string, string, nat) -> Reply): (o: Outcome)
    ensures o.ServerNotRunning? <==> server.None?
    ensures o.ModelNotInstalled? <==> server.Some? && !Installed(models)
    ensures o.Usage? <==> server.Some? && Installed(models) && |paths| == 0
    ensures o.NoContent? <==> server.Some? && Installed(models) && |paths| > 0 && ReadDocuments(paths, disk) == ""
    ensures o.Chatted? ==> o.context == ReadDocuments(paths, disk) && o.context != ""
    ensures o.Chatted? ==> o.session == Converse(o.context, lines, model)
  {
    if server.None? then ServerNotRunning
    else if !Installed(models) then ModelNotInstalled
    else if |paths| == 0 then Usage
    else
      var context := ReadDocuments(paths, disk);
      if context == "" then NoContent
      else Chatted(context, Converse(context, lines, model))
  }
}
