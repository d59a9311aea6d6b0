/**
 The two natural-language SQL chatbots (Oracle Autonomous Database and Azure
 PostgreSQL). Both read `key="value"` connection settings, ask a local
 model for a query, take the query out of a ```sql fence, run it, and loop
 on the user's questions. They differ only in the required settings and in
 whether result column names are upper-cased, which is what `Dialect` holds.

 The model is a function from the turn number to its reply (None when the
 call fails); the database is a function from the turn number and SQL text
 to what the driver reports.
 */
module SqlChatbot {
  import opened Wrappers
  import opened Text
  import opened Sequences
  import opened ChatInput
  import opened Settings

  // ---------------------------------------------------------------------
  // Connection settings
  // ---------------------------------------------------------------------

  datatype Dialect = Dialect(requiredKeys: seq<string>, upperColumns: bool)

  const Oracle: Dialect := Dialect(["username", "password", "dsn", "wallet_path", "wallet_password"], false)
  const Postgres: Dialect := Dialect(["host", "port", "database", "username", "password"], true)

  /**
   One line of the settings file: the comment from the first '#' on is
   dropped, and a line with an '=' sets the stripped text before the first
   '=' to the rest, stripped of whitespace and then of surrounding quotes.
   */
  function ParseLine(line: string): (r: Option<(string, string)>)
    ensures r.None? <==> '=' !in BeforeFirst(line, '#')
    ensures r.Some? ==> Trimmed(r.value.0) && '=' !in r.value.0 && '#' !in r.value.0
    ensures r.Some? ==> '#' !in r.value.1
    ensures r.Some? ==> |r.value.1| == 0 || (r.value.1[0] != '"' && r.value.1[|r.value.1| - 1] != '"')
    ensures r.Some? ==> SettingOf(Strip(BeforeFirst(line, '#')), r.value)
  {
    var code := BeforeFirst(line, '#');
    var text := Strip(code);
    StripKeepsNonSpace(code, '=');
    StripKeepsNonSpace(code, '#');
    match Partition(text, '=')
    case None => None
    case Some((k, v)) =>
      var key := Strip(k);
      var value := StripChar(Strip(v), '"');
      StripKeepsNonSpace(k, '=');
      StripKeepsNonSpace(k, '#');
      StripKeepsNonSpace(v, '#');
      assert '#' !in k && '#' !in v by { assert text == k + ['='] + v; }
      assert text == k + "=" + v;
      Some((key, value))
  }

  /**
   `text` is a key, an '=', and a value, with no '=' in the key, and `kv` is
   the stripped key with the value stripped of whitespace and then of quotes.
   */
  ghost predicate SettingOf(text: string, kv: (string, string)) {
    exists k, v :: text == k + "=" + v && '=' !in k && kv == (Strip(k), StripChar(Strip(v), '"'))
  }

  /** The settings of a file; no value holds a '#'. */
  function ParseConfig(lines: seq<string>): (cfg: map<string, string>)
    ensures forall k :: k in cfg ==> '#' !in cfg[k]
  {
    var settings := Map(ParseLine, lines);
    var cfg := Collect(settings);
    assert forall k :: k in cfg ==> '#' !in cfg[k] by {
      forall k | k in cfg ensures '#' !in cfg[k] {
        var i := CollectFrom(settings, k);
        assert settings[i] == ParseLine(lines[i]);
      }
    }
    cfg
  }

  /** A key is set exactly when some line of the file sets it. */
  lemma ParseConfigKeys(lines: seq<string>, key: string)
    ensures key in ParseConfig(lines) <==> exists i :: Sets(Map(ParseLine, lines), i, key)
  {
    assert ParseConfig(lines) == Collect(Map(ParseLine, lines));
    CollectKeys(Map(ParseLine, lines), key);
  }

  /** A later line with the same key overwrites an earlier one: the last line setting a key wins. */
  lemma ParseConfigLastWins(lines: seq<string>, i: nat, key: string)
    requires LastSets(Map(ParseLine, lines), i, key)
    ensures key in ParseConfig(lines) && ParseConfig(lines)[key] == Map(ParseLine, lines)[i].value.1
  {
    assert ParseConfig(lines) == Collect(Map(ParseLine, lines));
    CollectLast(Map(ParseLine, lines), i, key);
  }

  /** `key="value"` followed by a newline, as the settings file shows it. */
  function SettingLine(key: string, value: string): string {
    key + "=\"" + value + "\"\n"
  }

  lemma StripCharQuoted(v: string, c: char)
    requires |v| == 0 || (v[0] != c && v[|v| - 1] != c)
    ensures StripChar([c] + v + [c], c) == v
  {
    var s := [c] + v + [c];
    assert s[1..] == v + [c];
    if |v| == 0 {
      assert StripChar([c], c) == StripChar([c][1..], c);
    } else {
      assert (v + [c])[..|v|] == v;
    }
  }

  lemma NoHashInSettingLine(key: string, value: string)
    requires '#' !in key && '#' !in value
    ensures '#' !in SettingLine(key, value)
  {
    var line := SettingLine(key, value);
    forall i | 0 <= i < |line| ensures line[i] != '#' {
      if i < |key| {
        assert line[i] == key[i];
      } else if |key| + 2 <= i < |key| + 2 + |value| {
        assert line[i] == value[i - |key| - 2];
      }
    }
  }

  lemma StripSettingLine(key: string, value: string)
    requires Trimmed(key)
    ensures Strip(SettingLine(key, value)) == key + ['='] + ("\"" + value + "\"")
  {
    var body := key + ['='] + ("\"" + value + "\"");
    assert SettingLine(key, value) == "" + body + "\n";
    assert body[|body| - 1] == '"';
    assert body[0] == if |key| > 0 then key[0] else '=';
    StripSurrounded("", body, "\n");
  }

  /** A setting written in the documented form reads back as the same key and value. */
  lemma SettingRoundTrip(key: string, value: string)
    requires Trimmed(key) && '=' !in key && '#' !in key
    requires '#' !in value && (|value| == 0 || (value[0] != '"' && value[|value| - 1] != '"'))
    ensures ParseLine(SettingLine(key, value)) == Some((key, value))
  {
    var line := SettingLine(key, value);
    var quoted := "\"" + value + "\"";
    NoHashInSettingLine(key, value);
    assert BeforeFirst(line, '#') == line;
    StripSettingLine(key, value);
    PartitionAt(key, quoted);
    StripOfTrimmed(key);
    StripOfTrimmed(quoted);
    assert quoted == ['"'] + value + ['"'];
    StripCharQuoted(value, '"');
  }

  /**
   The connection file as the script finds it: absent, present but
   unreadable (opening or decoding it raises), or its lines.
   */
  datatype SettingsFile = NoFile | CannotRead | FileLines(lines: seq<string>)

  datatype ConfigError = FileNotFound | ReadFailed | MissingKeys(keys: seq<string>)

  /**
   `read_connection_details()`: the whole settings map when every required
   key is set, otherwise the missing keys (the script prints them and exits).
   A read that raises is caught by the `except Exception` and also ends the
   script; the `sys.exit` for missing keys is not an `Exception`, so it is
   not caught there.
   */
  function ReadConnectionDetails(file: SettingsFile, d: Dialect): (r: Result<map<string, string>, ConfigError>)
    ensures file.NoFile? <==> r == Err(FileNotFound)
    ensures file.CannotRead? <==> r == Err(ReadFailed)
    ensures r.Ok? ==> (file.FileLines? && r.value == ParseConfig(file.lines)
      && forall i :: 0 <= i < |d.requiredKeys| ==> d.requiredKeys[i] in r.value)
    ensures file.FileLines? ==> (r.Ok? <==> forall i :: 0 <= i < |d.requiredKeys| ==> d.requiredKeys[i] in ParseConfig(file.lines))
    ensures r.Err? && r.error.MissingKeys? ==> (file.FileLines?
      && r.error.keys == Missing(d.requiredKeys, ParseConfig(file.lines)) && |r.error.keys| > 0)
  {
    match file
    case NoFile => Err(FileNotFound)
    case CannotRead => Err(ReadFailed)
    case FileLines(lines) =>
      var cfg := ParseConfig(lines);
      var missing := Missing(d.requiredKeys, cfg);
      if |missing| > 0 then
        assert missing[0] in d.requiredKeys && missing[0] !in cfg;
        Err(MissingKeys(missing))
      else Ok(cfg)
  }

  // ---------------------------------------------------------------------
  // SQL extraction
  // ---------------------------------------------------------------------

  const SqlOpen: string := "```sql"
  const Fence: string := "```"
  const Refusal: string := "-- Cannot generate"

  /**
   What `re.search(r'```sql\s*(.*?)\s*```', raw, re.DOTALL).group(1).strip()`
   gives: the text between the first "```sql" and the first "```" after it,
   without surrounding whitespace; None when either is missing.
   */
  function SqlBlock(raw: string): (r: Option<string>)
    ensures r.None? <==> !Contains(raw, SqlOpen) || FindFrom(raw, Fence, FindFrom(raw, SqlOpen, 0).value + |SqlOpen|).None?
    ensures r.Some? ==> Trimmed(r.value) && !Contains(r.value, Fence)
    ensures r.Some? ==> BlockOf(raw, r.value)
  {
    match FindFrom(raw, SqlOpen, 0)
    case None => None
    case Some(p) =>
      match FindFrom(raw, Fence, p + |SqlOpen|)
      case None => None
      case Some(c) =>
        var inner := raw[p + |SqlOpen|..c];
        assert !Contains(inner, Fence) by {
          forall i | 0 <= i ensures !OccursAt(inner, Fence, i) {
            SliceOccurs(raw, p + |SqlOpen|, c, Fence, i);
          }
        }
        StripSubstring(inner, Fence);
        FoundBlock(raw, p, c);
        Some(Strip(inner))
  }

  /**
   `p` is the first "```sql" of `raw` and `c` the first "```" after it: the
   span the pattern `'```sql\s*(.*?)\s*```'` matches.
   */
  predicate FirstBlock(raw: string, p: nat, c: nat) {
    && OccursAt(raw, SqlOpen, p) && (forall j :: 0 <= j < p ==> !OccursAt(raw, SqlOpen, j))
    && p + |SqlOpen| <= c && OccursAt(raw, Fence, c)
    && (forall j :: p + |SqlOpen| <= j < c ==> !OccursAt(raw, Fence, j))
  }

  /** `block` is the stripped text between the first "```sql" of `raw` and the first "```" after it. */
  ghost predicate BlockOf(raw: string, block: string) {
    exists p: nat, c: nat :: FirstBlock(raw, p, c) && block == Strip(raw[p + |SqlOpen|..c])
  }

  lemma FoundBlock(raw: string, p: nat, c: nat)
    requires FindFrom(raw, SqlOpen, 0) == Some(p) && FindFrom(raw, Fence, p + |SqlOpen|) == Some(c)
    ensures FirstBlock(raw, p, c) && BlockOf(raw, Strip(raw[p + |SqlOpen|..c]))
  {
    assert FirstBlock(raw, p, c);
  }

  /** The block is the stripped text between the first "```sql" and the first "```" after it. */
  lemma SqlBlockBetween(raw: string, p: nat, c: nat)
    requires FirstBlock(raw, p, c)
    ensures SqlBlock(raw) == Some(Strip(raw[p + |SqlOpen|..c]))
  {
    assert FindFrom(raw, SqlOpen, 0) == Some(p);
    assert FindFrom(raw, Fence, p + |SqlOpen|) == Some(c);
  }

  /** `sql.rstrip(';').strip()` */
  function CleanSql(block: string): (r: string)
    requires !Contains(block, Fence)
    ensures Trimmed(r) && !Contains(r, Fence)
  {
    var t := RStripChar(block, ';');
    SliceSubstring(block, 0, |t|, Fence);
    assert block[0..|t|] == t;
    StripSubstring(t, Fence);
    Strip(t)
  }

  /**
   Cleaning removes the trailing run of ';' and then the whitespace around
   what is left: `body` is everything before that run.
   */
  lemma CleanSqlOf(body: string, semicolons: string)
    requires |body| == 0 || body[|body| - 1] != ';'
    requires forall i :: 0 <= i < |semicolons| ==> semicolons[i] == ';'
    requires !Contains(body + semicolons, Fence)
    ensures CleanSql(body + semicolons) == Strip(body)
  {
    RStripCharOf(body, semicolons, ';');
  }

  /** A query that already is clean comes back unchanged, whatever run of ';' follows it. */
  lemma CleanSqlDropsSemicolons(query: string, semicolons: string)
    requires Trimmed(query) && (|query| == 0 || query[|query| - 1] != ';')
    requires forall i :: 0 <= i < |semicolons| ==> semicolons[i] == ';'
    requires !Contains(query + semicolons, Fence)
    ensures CleanSql(query + semicolons) == query
  {
    CleanSqlOf(query, semicolons);
    StripOfTrimmed(query);
  }

  /**
   `generate_sql(query)` given the model's reply (None when the call
   fails): the cleaned query, None without a fence or when the model
   refuses. The query may be empty.
   */
  function GenerateSql(reply: Option<string>): (r: Option<string>)
    ensures r.Some? ==> Trimmed(r.value) && !Contains(r.value, Fence) && !StartsWith(r.value, Refusal)
    ensures reply.None? ==> r.None?
    ensures reply.Some? && SqlBlock(Strip(reply.value)).None? ==> r.None?
    ensures reply.Some? && SqlBlock(Strip(reply.value)).Some? ==>
      var sql := CleanSql(SqlBlock(Strip(reply.value)).value);
      r == if StartsWith(sql, Refusal) then None else Some(sql)
  {
    match reply
    case None => None
    case Some(text) =>
      match SqlBlock(Strip(text))
      case None => None
      case Some(block) =>
        var sql := CleanSql(block);
        if StartsWith(sql, Refusal) then None else Some(sql)
  }

  /** The reply `"```sql\n" + query + "\n```"`. */
  function Fenced(query: string): string {
    SqlOpen + "\n" + query + "\n" + Fence
  }

  /** Where the parts of a fenced query sit. */
  lemma FencedLayout(query: string)
    ensures var text := Fenced(query); var c := |SqlOpen| + |query| + 2;
      && |text| == c + |Fence|
      && text[|SqlOpen|] == '\n' && text[c - 1] == '\n'
      && text[|SqlOpen| + 1..c - 1] == query
      && text[c..] == Fence
  {
  }

  /** No "```" starts between two newlines that enclose a text without one. */
  lemma NoFenceBetween(text: string, query: string, o: nat, c: nat, j: int)
    requires o + 1 < c <= |text| && text[o] == '\n' && text[c - 1] == '\n'
    requires text[o + 1..c - 1] == query && !Contains(query, Fence)
    requires o <= j < c
    ensures !OccursAt(text, Fence, j)
  {
    if j == o {
      assert j + |Fence| > |text| || text[j..j + |Fence|][0] == '\n';
    } else if j + |Fence| <= c - 1 {
      SliceOccursBack(text, o + 1, c - 1, Fence, j);
      assert !OccursAt(query, Fence, j - o - 1);
    } else {
      assert j + |Fence| > |text| || text[j..j + |Fence|][c - 1 - j] == '\n';
    }
  }

  /** In a fenced query without "```", the first "```" after the opener is the closing one. */
  lemma FencedCloser(query: string)
    requires !Contains(query, Fence)
    ensures FindFrom(Fenced(query), Fence, |SqlOpen|) == Some(|SqlOpen| + |query| + 2)
  {
    var text := Fenced(query);
    var c := |SqlOpen| + |query| + 2;
    assert text[c..] == Fence;
    assert OccursAt(text, Fence, c);
    FencedLayout(query);
    forall j | |SqlOpen| <= j < c ensures !OccursAt(text, Fence, j) {
      NoFenceBetween(text, query, |SqlOpen|, c, j);
    }
  }

  /** The block of a fenced query is the query. */
  lemma FencedBlock(query: string)
    requires Trimmed(query) && !Contains(query, Fence)
    ensures SqlBlock(Fenced(query)) == Some(query)
  {
    var mid := FencedBlockText(query);
    StripNewlines(query);
  }

  lemma StripNewlines(query: string)
    requires Trimmed(query)
    ensures Strip("\n" + query + "\n") == query
  {
    assert AllSpace("\n") by { assert IsSpace('\n'); }
    StripSurrounded("\n", query, "\n");
  }

  /** The block of a fenced query without "```" is the query and its two newlines, stripped. */
  lemma FencedBlockText(query: string) returns (mid: string)
    requires !Contains(query, Fence)
    ensures mid == "\n" + query + "\n" && SqlBlock(Fenced(query)) == Some(Strip(mid))
  {
    var c := |SqlOpen| + |query| + 2;
    FencedParts(query);
    FencedCloser(query);
    SqlBlockAt(Fenced(query), c);
    mid := Fenced(query)[|SqlOpen|..c];
  }

  /** A fenced query opens with "```sql" and holds the query between two newlines. */
  lemma FencedParts(query: string)
    ensures OccursAt(Fenced(query), SqlOpen, 0)
    ensures Fenced(query)[|SqlOpen|..|SqlOpen| + |query| + 2] == "\n" + query + "\n"
  {
    var text := Fenced(query);
    assert text == SqlOpen + ("\n" + query + "\n") + Fence;
  }

  /** A text that opens with "```sql" has as block what lies before the first "```" after it. */
  lemma SqlBlockAt(raw: string, c: nat)
    requires OccursAt(raw, SqlOpen, 0) && FindFrom(raw, Fence, |SqlOpen|) == Some(c)
    ensures SqlBlock(raw) == Some(Strip(raw[|SqlOpen|..c]))
  {
    assert FindFrom(raw, SqlOpen, 0) == Some(0);
  }

  /** A reply that is one fenced query yields that query. */
  lemma GenerateSqlRoundTrip(query: string)
    requires query != "" && Trimmed(query) && !Contains(query, Fence)
    requires query[|query| - 1] != ';' && !StartsWith(query, Refusal)
    ensures GenerateSql(Some(Fenced(query))) == Some(query)
  {
    var text := Fenced(query);
    FencedTrimmed(query);
    StripOfTrimmed(text);
    FencedBlock(query);
    assert RStripChar(query, ';') == query;
    StripOfTrimmed(query);
    assert SqlBlock(Strip(text)) == Some(query) && CleanSql(query) == query;
  }

  lemma FencedTrimmed(query: string)
    ensures Trimmed(Fenced(query))
  {
    var text := Fenced(query);
    assert text[0] == '`' && text[|text| - 1] == '`';
  }

  // ---------------------------------------------------------------------
  // Running a statement
  // ---------------------------------------------------------------------

  type Row = seq<string>

  /** What the database driver reports for one statement. */
  datatype StoreReply = StoreFailure(message: string) | Executed(columns: seq<string>, rows: seq<Row>)

  datatype Results = Message(text: string) | Rows(rows: seq<Row>)

  /** The `(columns, results)` pair `execute_query` returns, and whether it committed. */
  datatype QueryOutput = QueryOutput(columns: Option<seq<string>>, results: Results, committed: bool)

  const NoResults: string := "No results found for this query."
  const Success: string := "Query executed successfully."
  const ErrorPrefix: string := "Error executing query: "

  /**
   A statement is read back as rows exactly when its first six characters
   after the leading whitespace spell SELECT, in any letter case.
   */
  predicate IsQuery(sql: string)
    ensures IsQuery(sql) <==> (|Strip(sql)| >= 6 && Upper(Strip(sql)[..6]) == "SELECT")
  {
    UpperPrefix(Strip(sql), 6);
    StartsWith(Upper(Strip(sql)), "SELECT")
  }

  function ColumnNames(d: Dialect, columns: seq<string>): (r: seq<string>)
    ensures |r| == |columns|
    ensures d.upperColumns ==> forall i :: 0 <= i < |r| ==> r[i] == Upper(columns[i]) && Upper(r[i]) == r[i]
    ensures !d.upperColumns ==> r == columns
  {
    if d.upperColumns then
      var r := seq(|columns|, i requires 0 <= i < |columns| => Upper(columns[i]));
      assert forall i :: 0 <= i < |r| ==> Upper(r[i]) == r[i] by {
        forall i | 0 <= i < |r| ensures Upper(r[i]) == r[i] { UpperIdempotent(columns[i]); }
      }
      r
    else columns
  }

  /** `execute_query(connection, sql)` given the driver's report. */
  function ExecuteQuery(d: Dialect, sql: string, reply: StoreReply): (r: QueryOutput)
    ensures r.committed <==> reply.Executed? && !IsQuery(sql)
    ensures r.results.Rows? <==> reply.Executed? && IsQuery(sql) && |reply.rows| > 0
    ensures r.results.Rows? ==> r.results.rows == reply.rows
    ensures r.columns.Some? <==> reply.Executed? && IsQuery(sql)
    ensures r.columns.Some? ==> r.columns.value == ColumnNames(d, reply.columns)
    ensures reply.StoreFailure? ==> r.results == Message(ErrorPrefix + reply.message)
    ensures reply.Executed? && !IsQuery(sql) ==> r.results == Message(Success)
    ensures reply.Executed? && IsQuery(sql) && |reply.rows| == 0 ==> r.results == Message(NoResults)
  {
    match reply
    case StoreFailure(msg) => QueryOutput(None, Message(ErrorPrefix + msg), false)
    case Executed(columns, rows) =>
      if IsQuery(sql) then
        var names := ColumnNames(d, columns);
        if |rows| == 0 then QueryOutput(Some(names), Message(NoResults), false)
        else QueryOutput(Some(names), Rows(rows), false)
      else QueryOutput(None, Message(Success), true)
  }

  /** Letter case does not change how a statement is classified. */
  lemma IsQueryIgnoresCase(sql: string)
    ensures IsQuery(Lower(sql)) <==> IsQuery(sql)
  {
    LowerStripCommutes(sql);
    UpperOfLower(Strip(sql));
    assert Upper(Strip(Lower(sql))) == Upper(Strip(sql));
  }

  lemma UpperOfLower(t: string)
    ensures Upper(Lower(t)) == Upper(t)
  {
    forall i | 0 <= i < |t| ensures Upper(Lower(t))[i] == Upper(t)[i] {
      assert Lower(t)[i] == LowerChar(t[i]);
    }
  }

  lemma LowerCharSpace(c: char)
    ensures IsSpace(LowerChar(c)) <==> IsSpace(c)
  {
  }

  /** Lower-casing commutes with `strip()`: it maps whitespace to whitespace and nothing else to it. */
  lemma LowerStripCommutes(s: string)
    ensures Strip(Lower(s)) == Lower(Strip(s))
  {
    LowerLStrip(s);
    LowerRStrip(LStrip(s));
  }

  lemma {:induction false} LowerLStrip(s: string)
    ensures LStrip(Lower(s)) == Lower(LStrip(s))
    decreases |s|
  {
    if |s| > 0 {
      var l := Lower(s);
      assert l[0] == LowerChar(s[0]);
      LowerCharSpace(s[0]);
      assert l[1..] == Lower(s[1..]);
      LowerLStrip(s[1..]);
    }
  }

  lemma {:induction false} LowerRStrip(s: string)
    ensures RStrip(Lower(s)) == Lower(RStrip(s))
    decreases |s|
  {
    if |s| > 0 {
      var n := |s| - 1;
      var l := Lower(s);
      assert l[n] == LowerChar(s[n]);
      LowerCharSpace(s[n]);
      if IsSpace(s[n]) {
        assert RStrip(l) == RStrip(l[..n]) && RStrip(s) == RStrip(s[..n]);
        LowerPrefix(s, n);
        LowerRStrip(s[..n]);
      } else {
        assert RStrip(l) == l && RStrip(s) == s;
      }
    }
  }

  lemma LowerPrefix(s: string, n: nat)
    requires n <= |s|
    ensures Lower(s)[..n] == Lower(s[..n])
  {
    assert forall i :: 0 <= i < n ==> Lower(s)[..n][i] == LowerChar(s[i]) == Lower(s[..n])[i];
  }

  // ---------------------------------------------------------------------
  // The chat loop
  // ---------------------------------------------------------------------

  /** The bot's answer to a question. */
  datatype Answer = CannotGenerate | Ran(sql: string, output: QueryOutput)

  /**
   The answer to `question`, asked on input line `i`: no SQL (or empty SQL)
   is never run, any other SQL is run once.
   */
  function Respond(d: Dialect, question: string, i: nat, llm: (nat, string) -> Option<string>,
                   store: (nat, string) -> StoreReply): (a: Answer)
    ensures a.CannotGenerate? <==> GenerateSql(llm(i, question)) in {None, Some("")}
    ensures a.Ran? ==>
      && GenerateSql(llm(i, question)) == Some(a.sql)
      && a.sql != "" && Trimmed(a.sql)
      && a.output == ExecuteQuery(d, a.sql, store(i, a.sql))
  {
    match GenerateSql(llm(i, question))
    case None => CannotGenerate
    case Some(sql) =>
      if sql == "" then CannotGenerate else Ran(sql, ExecuteQuery(d, sql, store(i, sql)))
  }

  /** `main()` after connecting: the chat over the input lines. */
  function Chatbot(d: Dialect, lines: seq<string>, llm: (nat, string) -> Option<string>,
                   store: (nat, string) -> StoreReply): (s: Session<Answer>)
    ensures |s.turns| <= |lines|
    ensures forall k :: 0 <= k < |s.turns| ==> (s.turns[k].Reprompt? <==> Classify(lines[k]).Blank?)
    ensures forall k :: 0 <= k < |s.turns| && s.turns[k].Answered? ==>
      s.turns[k].reply == Respond(d, Strip(lines[k]), k, llm, store)
    ensures forall k :: 0 <= k < |s.turns| ==> !Classify(lines[k]).Quit?
    ensures s.exited ==> |s.turns| < |lines| && Classify(lines[|s.turns|]).Quit?
    ensures !s.exited ==> |s.turns| == |lines|
  {
    Chat(lines, (q, i) => Respond(d, q, i, llm, store))
  }

  /**
   Every statement the chat runs is the non-empty cleaned SQL of the model's
   reply to that line's question, and it is run exactly as cleaned.
   */
  lemma ChatRunsOnlyGeneratedSql(d: Dialect, lines: seq<string>, llm: (nat, string) -> Option<string>,
                                 store: (nat, string) -> StoreReply, k: nat)
    requires k < |Chatbot(d, lines, llm, store).turns|
    requires Chatbot(d, lines, llm, store).turns[k].Answered?
    requires Chatbot(d, lines, llm, store).turns[k].reply.Ran?
    ensures var a := Chatbot(d, lines, llm, store).turns[k].reply;
      && Classify(lines[k]).Ask?
      && GenerateSql(llm(k, Strip(lines[k]))) == Some(a.sql) && a.sql != ""
  {
  }
}
