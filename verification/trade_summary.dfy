/**
 The summary script: for a trading log, the choice of the profit column,
 the trade counts and sums, the currency pairs and the output-file name;
 for other documents, the choice of a reader by extension; and the loop
 that summarises each file matching a pattern.
 */
module TradeSummary {
  import opened Wrappers
  import opened Text
  import opened Paths
  import opened Sequences
  import DocChatbot

  // ---------------------------------------------------------------------
  // The trading log
  // ---------------------------------------------------------------------

  /** A cell of the log as pandas reads it: a number or text. */
  datatype Cell = Num(value: real) | Str(text: string)

  /** A table: its column names and its rows. */
  datatype Frame = Frame(columns: seq<string>, rows: seq<seq<Cell>>)

  /** Every row has one cell per column, as `pd.read_csv` guarantees. */
  predicate Rectangular(f: Frame) {
    forall k :: 0 <= k < |f.rows| ==> |f.rows[k]| == |f.columns|
  }

  /** The cells of column `i`, one per row. */
  function Column(f: Frame, i: nat): (r: seq<Cell>)
    requires Rectangular(f) && i < |f.columns|
    ensures |r| == |f.rows| && forall k :: 0 <= k < |r| ==> r[k] == f.rows[k][i]
  {
    seq(|f.rows|, k requires 0 <= k < |f.rows| => f.rows[k][i])
  }

  const ProfitNames: seq<string> := ["profit", "p/l", "pnl", "profit/loss"]

  /** A column name that, lower-cased, names profit or loss. */
  predicate IsProfitName(column: string) {
    Lower(column) in ProfitNames
  }

  /** The profit column: the first column with a profit name, if any. */
  function ProfitColumn(columns: seq<string>): (r: Option<nat>)
    ensures r.None? <==> forall i :: 0 <= i < |columns| ==> !IsProfitName(columns[i])
    ensures r.Some? ==> (r.value < |columns| && IsProfitName(columns[r.value])
      && forall i :: 0 <= i < r.value ==> !IsProfitName(columns[i]))
  {
    if |columns| == 0 then None
    else if IsProfitName(columns[0]) then Some(0)
    else match ProfitColumn(columns[1..])
      case None => None
      case Some(i) => Some(i + 1)
  }

  /** Whether a column names profit does not depend on its case. */
  lemma ProfitNameIgnoresCase(column: string)
    ensures IsProfitName(Upper(column)) <==> IsProfitName(column)
  {
    LowerOfUpper(column);
  }

  /** The values of a column when all its cells are numbers; None where comparing them with 0 raises. */
  function Numbers(cells: seq<Cell>): (r: Option<seq<real>>)
    ensures r.Some? <==> forall k :: 0 <= k < |cells| ==> cells[k].Num?
    ensures r.Some? ==> |r.value| == |cells| && forall k :: 0 <= k < |cells| ==> r.value[k] == cells[k].value
  {
    if |cells| == 0 then Some([])
    else if !cells[0].Num? then None
    else match Numbers(cells[1..])
      case None => None
      case Some(rest) => Some([cells[0].value] + rest)
  }

  predicate IsGain(x: real) { x > 0.0 }
  predicate IsLoss(x: real) { x < 0.0 }

  /** `df[col][df[col] > 0]` */
  function Gains(values: seq<real>): seq<real> {
    Filter(IsGain, values)
  }

  /** `df[col][df[col] < 0]` */
  function Losses(values: seq<real>): seq<real> {
    Filter(IsLoss, values)
  }

  function Sum(xs: seq<real>): real {
    if |xs| == 0 then 0.0 else xs[0] + Sum(xs[1..])
  }

  /** No trade is both profitable and loss-making. */
  lemma {:induction false} CountsBounded(values: seq<real>)
    ensures |Gains(values)| + |Losses(values)| <= |values|
  {
    if |values| > 0 {
      CountsBounded(values[1..]);
    }
  }

  /** The net result is the total profit plus the total loss. */
  lemma {:induction false} NetIsProfitPlusLoss(values: seq<real>)
    ensures Sum(values) == Sum(Gains(values)) + Sum(Losses(values))
  {
    if |values| > 0 {
      NetIsProfitPlusLoss(values[1..]);
    }
  }

  /** Profits sum to at least 0 and losses to at most 0. */
  lemma {:induction false} SignedSums(values: seq<real>)
    ensures Sum(Gains(values)) >= 0.0 && Sum(Losses(values)) <= 0.0
  {
    if |values| > 0 {
      SignedSums(values[1..]);
    }
  }

  /** `count / total * 100`, or 0 when there are no trades. */
  function Percent(count: nat, total: nat): (r: real)
    ensures total == 0 ==> r == 0.0
    ensures total > 0 ==> r * total as real == count as real * 100.0
  {
    if total > 0 then count as real / total as real * 100.0 else 0.0
  }

  /** Two disjoint shares of the trades add up to at most 100 percent. */
  lemma PercentBounds(a: nat, b: nat, total: nat)
    requires a + b <= total
    ensures Percent(a, total) >= 0.0 && Percent(b, total) >= 0.0
    ensures Percent(a, total) + Percent(b, total) <= 100.0
  {
    if total > 0 {
      var t := total as real;
      var pa, pb := Percent(a, total), Percent(b, total);
      QuotientBounds(pa, t, a as real * 100.0, 100.0);
      QuotientBounds(pb, t, b as real * 100.0, 100.0);
      assert (pa + pb) * t == pa * t + pb * t;
      QuotientBounds(pa + pb, t, (a + b) as real * 100.0, 100.0);
    }
  }

  /** Dividing by a positive number keeps the sign and an upper bound. */
  lemma QuotientBounds(x: real, t: real, y: real, c: real)
    requires t > 0.0 && x * t == y
    ensures y >= 0.0 ==> x >= 0.0
    ensures y <= c * t ==> x <= c
  {
  }

  /** The currency pairs of the log, or "N/A" when it has no `Pair` column. */
  datatype Pairs = NotAvailable | Listed(pairs: seq<string>)

  /** The texts of the cells when all of them are text; None where joining them raises. */
  function Texts(cells: seq<Cell>): (r: Option<seq<string>>)
    ensures r.Some? <==> forall k :: 0 <= k < |cells| ==> cells[k].Str?
    ensures r.Some? ==> |r.value| == |cells| && forall k :: 0 <= k < |cells| ==> r.value[k] == cells[k].text
  {
    if |cells| == 0 then Some([])
    else if !cells[0].Str? then None
    else match Texts(cells[1..])
      case None => None
      case Some(rest) => Some([cells[0].text] + rest)
  }

  /**
   `df['Pair'].unique()` joined into the metrics: each pair once, in order
   of first appearance, when a column is named exactly "Pair".
   */
  function CurrencyPairs(f: Frame): (r: Option<Pairs>)
    requires Rectangular(f)
    ensures r == Some(NotAvailable) <==> "Pair" !in f.columns
    ensures r.None? <==> ("Pair" in f.columns && Texts(Column(f, FirstIndex(f.columns, "Pair"))).None?)
    ensures r.Some? && r.value.Listed? ==> ("Pair" in f.columns && Distinct(r.value.pairs)
      && var cells := Column(f, FirstIndex(f.columns, "Pair"));
      (forall k :: 0 <= k < |r.value.pairs| ==> Str(r.value.pairs[k]) in cells)
      && (forall k :: 0 <= k < |cells| ==> cells[k].text in r.value.pairs)
      && var texts := Texts(cells).value;
      forall k, l :: 0 <= k < l < |r.value.pairs| ==> FirstIndex(texts, r.value.pairs[k]) < FirstIndex(texts, r.value.pairs[l]))
  {
    if "Pair" !in f.columns then Some(NotAvailable)
    else match UniqueTexts(Column(f, FirstIndex(f.columns, "Pair")))
      case None => None
      case Some(pairs) => Some(Listed(pairs))
  }

  /** The distinct texts of the cells, in order of first appearance; None when a cell is not text. */
  function UniqueTexts(cells: seq<Cell>): (r: Option<seq<string>>)
    ensures r.None? <==> Texts(cells).None?
    ensures r.Some? ==> Distinct(r.value)
    ensures r.Some? ==> forall k :: 0 <= k < |r.value| ==> Str(r.value[k]) in cells
    ensures r.Some? ==> forall k :: 0 <= k < |cells| ==> cells[k].text in r.value
    ensures r.Some? ==> forall k, l :: 0 <= k < l < |r.value| ==>
      FirstIndex(Texts(cells).value, r.value[k]) < FirstIndex(Texts(cells).value, r.value[l])
  {
    match Texts(cells)
    case None => None
    case Some(texts) =>
      var pairs := Dedup(texts);
      assert forall k :: 0 <= k < |pairs| ==> Str(pairs[k]) in cells by {
        forall k | 0 <= k < |pairs| ensures Str(pairs[k]) in cells {
          var j :| 0 <= j < |texts| && texts[j] == pairs[k];
          assert cells[j] == Str(pairs[k]);
        }
      }
      Some(pairs)
  }

  /** The "Currency Pairs" line of the metrics. */
  function PairsText(p: Pairs): string {
    match p
    case NotAvailable => "N/A"
    case Listed(pairs) => Join(", ", pairs)
  }

  /** The figures `summarize_csv` puts in front of the model. */
  datatype Metrics = Metrics(
    totalTrades: nat,
    totalProfit: real,
    totalLoss: real,
    netProfit: real,
    profitableTrades: nat,
    lossTrades: nat,
    percentProfitable: real,
    percentLoss: real,
    pairs: Pairs)

  /** The metrics of a log whose profit column holds `values`. */
  function Measure(values: seq<real>, pairs: Pairs): (m: Metrics)
    ensures m.totalTrades == |values| && m.pairs == pairs
    ensures m.profitableTrades == |Gains(values)| && m.lossTrades == |Losses(values)|
    ensures m.profitableTrades + m.lossTrades <= m.totalTrades
    ensures m.totalProfit == Sum(Gains(values)) >= 0.0
    ensures m.totalLoss == Sum(Losses(values)) <= 0.0
    ensures m.netProfit == m.totalProfit + m.totalLoss
    ensures m.percentProfitable == Percent(m.profitableTrades, m.totalTrades)
    ensures m.percentLoss == Percent(m.lossTrades, m.totalTrades)
  {
    var gains := Gains(values);
    var losses := Losses(values);
    CountsBounded(values);
    NetIsProfitPlusLoss(values);
    SignedSums(values);
    Metrics(|values|, Sum(gains), Sum(losses), Sum(values), |gains|, |losses|,
            Percent(|gains|, |values|), Percent(|losses|, |values|), pairs)
  }

  /** The two percentages are shares of the trades and together stay within 100. */
  lemma MeasureShares(values: seq<real>, pairs: Pairs)
    ensures var m := Measure(values, pairs);
      0.0 <= m.percentProfitable && 0.0 <= m.percentLoss && m.percentProfitable + m.percentLoss <= 100.0
  {
    var m := Measure(values, pairs);
    PercentBounds(m.profitableTrades, m.lossTrades, m.totalTrades);
  }

  /**
   `summarize_csv`: None when the model server is down, when no column
   names profit, when a profit cell is not a number, when a pair is not
   text, or when the model call fails; otherwise the model's answer
   (`ask`) for the log's metrics, stripped.
   */
  function SummariseCsv(f: Frame, serverUp: bool, ask: Metrics -> Option<string>): (r: Option<string>)
    requires Rectangular(f)
    ensures !serverUp || ProfitColumn(f.columns).None? ==> r.None?
    ensures r.Some? ==> Trimmed(r.value)
    ensures serverUp && ProfitColumn(f.columns).Some? ==>
      var values := Numbers(Column(f, ProfitColumn(f.columns).value));
      var pairs := CurrencyPairs(f);
      (r.Some? <==> values.Some? && pairs.Some? && ask(Measure(values.value, pairs.value)).Some?)
      && (r.Some? ==> r.value == Strip(ask(Measure(values.value, pairs.value)).value))
  {
    if !serverUp then None
    else match ProfitColumn(f.columns)
      case None => None
      case Some(i) =>
        match Numbers(Column(f, i))
        case None => None
        case Some(values) =>
          match CurrencyPairs(f)
          case None => None
          case Some(pairs) =>
            match ask(Measure(values, pairs))
            case None => None
            case Some(reply) => Some(Strip(reply))
  }

  /** `summarize_text`: the model's answer for the text, stripped. */
  function SummariseText(text: string, serverUp: bool, ask: string -> Option<string>): (r: Option<string>)
    ensures r.Some? <==> serverUp && ask(text).Some?
    ensures r.Some? ==> Trimmed(r.value) && r.value == Strip(ask(text).value)
  {
    if !serverUp then None
    else match ask(text)
      case None => None
      case Some(reply) => Some(Strip(reply))
  }

  // ---------------------------------------------------------------------
  // Readers and output names
  // ---------------------------------------------------------------------

  /** The library `extract_text_from_file` reads a file with. */
  datatype Reader = PlainText | WordDoc | Pdf | RichText | Markdown | Html | Table

  /** The lower-cased extensions each reader handles. */
  function ExtensionsOf(r: Reader): set<string> {
    match r
    case PlainText => {".txt"}
    case WordDoc => {".doc", ".docx"}
    case Pdf => {".pdf"}
    case RichText => {".rtf"}
    case Markdown => {".md"}
    case Html => {".html"}
    case Table => {".csv"}
  }

  /** `Path(path).suffix.lower()` */
  function Extension(path: string): string {
    Lower(Suffix(path))
  }

  /** The reader for a path's extension, ignoring its case; None for an unsupported one. */
  function ReaderFor(path: string): (r: Option<Reader>)
    ensures r.Some? ==> Extension(path) in ExtensionsOf(r.value)
  {
    ReaderOf(Extension(path))
  }

  /** The reader for a lower-cased extension. */
  function ReaderOf(ext: string): (r: Option<Reader>)
    ensures r.Some? ==> ext in ExtensionsOf(r.value)
  {
    if ext == ".txt" then Some(PlainText)
    else if ext in [".doc", ".docx"] then Some(WordDoc)
    else if ext == ".pdf" then Some(Pdf)
    else if ext == ".rtf" then Some(RichText)
    else if ext == ".md" then Some(Markdown)
    else if ext == ".html" then Some(Html)
    else if ext == ".csv" then Some(Table)
    else None
  }

  /** A path gets a reader exactly when its extension is one that reader handles. */
  lemma ReaderForExtension(path: string, reader: Reader)
    ensures ReaderFor(path) == Some(reader) <==> Extension(path) in ExtensionsOf(reader)
  {
    ReaderOfExtension(Extension(path), reader);
  }

  lemma ReaderOfExtension(ext: string, reader: Reader)
    ensures ReaderOf(ext) == Some(reader) <==> ext in ExtensionsOf(reader)
  {
  }

  /** Unsupported extensions have no reader. */
  lemma ReaderForUnsupported(path: string)
    ensures ReaderFor(path).None? <==> forall reader: Reader :: Extension(path) !in ExtensionsOf(reader)
  {
    if ReaderFor(path).None? {
      forall reader: Reader ensures Extension(path) !in ExtensionsOf(reader) {
        ReaderForExtension(path, reader);
      }
    }
  }

  /**
   What the file libraries produce for one file; None where the library
   raises. `pages` holds each PDF page's text, None for a page without any.
   There is no entry for Markdown: `markdown.markdown` is called with
   `output_format='plain'`, which Python-Markdown does not know, so it
   raises for every `.md` file and the reader returns None.
   */
  datatype Library = Library(
    text: Option<string>,
    paragraphs: Option<seq<string>>,
    pages: Option<seq<Option<string>>>,
    richText: Option<string>,
    html: Option<string>,
    table: Option<string>)

  function PageText(page: Option<string>): string {
    match page
    case Some(t) => t
    case None => ""
  }

  /** `'\n'.join(page.extract_text() or '' for page in pdf.pages)` */
  function PdfText(pages: seq<Option<string>>): string {
    Join("\n", Map(PageText, pages))
  }

  /**
   When no page's text holds a line break, the lines of a PDF's text are
   its pages' texts in page order, "" for a page without text.
   */
  lemma PdfPages(pages: seq<Option<string>>)
    requires |pages| > 0
    requires forall k :: 0 <= k < |pages| ==> '\n' !in PageText(pages[k])
    ensures SplitOn(PdfText(pages), '\n') == Map(PageText, pages)
  {
    var texts := Map(PageText, pages);
    assert forall k :: 0 <= k < |texts| ==> '\n' !in texts[k];
    JoinSplitOn('\n', texts);
  }

  /** The text `extract_text_from_file` returns, or None. */
  function ExtractText(path: string, lib: Library): (r: Option<string>)
    ensures ReaderFor(path).None? ==> r.None?
    ensures ReaderFor(path) == Some(WordDoc) ==>
      r == if lib.paragraphs.Some? then Some(DocChatbot.DocxText(lib.paragraphs.value)) else None
    ensures ReaderFor(path) == Some(WordDoc) && r.Some? ==>
      (r.value == "" <==> forall k :: 0 <= k < |lib.paragraphs.value| ==> Strip(lib.paragraphs.value[k]) == "")
    ensures ReaderFor(path) == Some(PlainText) ==> r == lib.text
    ensures ReaderFor(path) == Some(Pdf) ==> r == if lib.pages.Some? then Some(PdfText(lib.pages.value)) else None
    ensures ReaderFor(path) == Some(Markdown) ==> r.None?
    ensures ReaderFor(path) == Some(RichText) ==> r == lib.richText
    ensures ReaderFor(path) == Some(Html) ==> r == lib.html
    ensures ReaderFor(path) == Some(Table) ==> r == lib.table
  {
    match ReaderFor(path)
    case None => None
    case Some(PlainText) => lib.text
    case Some(WordDoc) =>
      (match lib.paragraphs
       case None => None
       case Some(ps) => Some(DocChatbot.DocxText(ps)))
    case Some(Pdf) =>
      (match lib.pages
       case None => None
       case Some(pages) => Some(PdfText(pages)))
    case Some(RichText) => lib.richText
    case Some(Markdown) => None
    case Some(Html) => lib.html
    case Some(Table) => lib.table
  }

  const SummaryPrefix: string := "summary_"
  const SummarySuffix: string := ".txt"

  /** `write_summary`'s output file: "summary_" + the file's stem + ".txt". */
  function SummaryFileName(path: string): (r: string)
    ensures '/' !in r && StartsWith(r, SummaryPrefix) && EndsWith(r, SummarySuffix)
  {
    OutputName(Stem(path))
  }

  /** "summary_" + `stem` + ".txt" */
  function OutputName(stem: string): (r: string)
    requires '/' !in stem
    ensures '/' !in r && StartsWith(r, SummaryPrefix) && EndsWith(r, SummarySuffix)
  {
    var r := SummaryPrefix + stem + SummarySuffix;
    assert r[..|SummaryPrefix|] == SummaryPrefix;
    assert r[|r| - |SummarySuffix|..] == SummarySuffix;
    r
  }

  /** The output file's own stem is "summary_" + the input's stem, and its suffix is ".txt". */
  lemma SummaryFileNameParts(path: string)
    ensures Stem(SummaryFileName(path)) == SummaryPrefix + Stem(path)
    ensures Suffix(SummaryFileName(path)) == SummarySuffix
  {
    OutputNameParts(Stem(path));
  }

  /** Read back, an output name has stem "summary_" + `stem` and suffix ".txt". */
  lemma OutputNameParts(stem: string)
    requires '/' !in stem
    ensures Stem(OutputName(stem)) == SummaryPrefix + stem
    ensures Suffix(OutputName(stem)) == SummarySuffix
  {
    var name := SummaryPrefix + stem;
    assert '/' !in name;
    assert SummarySuffix[1..] == "txt";
    NameWithSuffix(name, SummarySuffix);
  }

  // ---------------------------------------------------------------------
  // The run over the matching files
  // ---------------------------------------------------------------------

  const DefaultPattern: string := "*.txt"

  /**
   What the script can learn about the files and the model: whether a path
   exists, what a pattern matches, the table `pd.read_csv` reads (None when
   it raises), what the file libraries produce, whether the model server
   answers, and the model's answers for metrics and for text.
   */
  datatype World = World(
    exists_: string -> bool,
    glob: string -> seq<string>,
    frame: string -> Option<Frame>,
    library: string -> Library,
    serverUp: bool,
    askMetrics: Metrics -> Option<string>,
    askText: string -> Option<string>)

  ghost predicate WellFormed(w: World) {
    forall path :: w.frame(path).Some? ==> Rectangular(w.frame(path).value)
  }

  /** What happened to one matching file. */
  datatype Step =
    | NotFound
    | ReadFailed
    | NoText
    | NoSummary
    | Summarised(summary: string, output: string)

  /** One iteration of `main`'s loop. */
  function SummariseFile(path: string, w: World): (s: Step)
    requires WellFormed(w)
    ensures s.NotFound? <==> !w.exists_(path)
    ensures s.ReadFailed? <==> w.exists_(path) && Extension(path) == ".csv" && w.frame(path).None?
    ensures s.NoText? <==> (w.exists_(path) && Extension(path) != ".csv"
      && (ExtractText(path, w.library(path)).None? || Strip(ExtractText(path, w.library(path)).value) == ""))
    ensures s.NoSummary? <==> (w.exists_(path) &&
      if Extension(path) == ".csv" then
        w.frame(path).Some? && SummariseCsv(w.frame(path).value, w.serverUp, w.askMetrics).None?
      else
        (ExtractText(path, w.library(path)).Some? && Strip(ExtractText(path, w.library(path)).value) != ""
          && SummariseText(ExtractText(path, w.library(path)).value, w.serverUp, w.askText).None?))
    ensures s.Summarised? ==> w.serverUp && Trimmed(s.summary) && s.output == SummaryFileName(path)
    ensures s.Summarised? && Extension(path) == ".csv" ==>
      Some(s.summary) == SummariseCsv(w.frame(path).value, w.serverUp, w.askMetrics)
    ensures s.Summarised? && Extension(path) != ".csv" ==>
      Some(s.summary) == SummariseText(ExtractText(path, w.library(path)).value, w.serverUp, w.askText)
  {
    if !w.exists_(path) then NotFound
    else if Extension(path) == ".csv" then
      match w.frame(path)
      case None => ReadFailed
      case Some(f) =>
        match SummariseCsv(f, w.serverUp, w.askMetrics)
        case None => NoSummary
        case Some(summary) => Summarised(summary, SummaryFileName(path))
    else
      match ExtractText(path, w.library(path))
      case None => NoText
      case Some(text) =>
        if Strip(text) == "" then NoText
        else
          match SummariseText(text, w.serverUp, w.askText)
          case None => NoSummary
          case Some(summary) => Summarised(summary, SummaryFileName(path))
  }

  datatype Outcome =
    | NoSuchFile
    | NoMatches
    | Processed(steps: seq<(string, Step)>)

  /**
   `main`: a pattern that is not a wildcard must name an existing file, and
   it must match something; then every match is summarised in turn.
   */
  function Run(pattern: Option<string>, w: World): (o: Outcome)
    requires WellFormed(w)
    ensures var p := if pattern.Some? then pattern.value else DefaultPattern;
      (o.NoSuchFile? <==> !StartsWith(p, "*") && !w.exists_(p))
      && (o.NoMatches? <==> (StartsWith(p, "*") || w.exists_(p)) && |w.glob(p)| == 0)
      && (o.Processed? ==> (|o.steps| == |w.glob(p)|
        && forall k :: 0 <= k < |o.steps| ==> o.steps[k] == (w.glob(p)[k], SummariseFile(w.glob(p)[k], w))))
  {
    var p := if pattern.Some? then pattern.value else DefaultPattern;
    if !StartsWith(p, "*") && !w.exists_(p) then NoSuchFile
    else
      var files := w.glob(p);
      if |files| == 0 then NoMatches
      else Processed(Map(path => (path, SummariseFile(path, w)), files))
  }
}
