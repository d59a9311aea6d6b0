# ai-python-scripts in Dafny

A model of the pure logic inside seven scripts of the `ai-python-scripts`
repository. The scripts wrap calls to language models and databases. The
model keeps their own decisions: parsing settings files, cutting fenced
blocks out of model replies, retrying, numbering, filtering, windowing,
counting and naming. Each external service is a parameter: a function
from the call's position (and its input) to what the service answers.

Modules:

- `Wrappers`, `Text`, `Paths`, `Sequences`, `Settings`: Python's `str`
  operations (`strip`, `split`, `find`, `rfind`, `lower`, `upper`,
  `join`), `os.path.splitext` and `pathlib`'s name, suffix and stem,
  `pandas.Series.unique`, list comprehensions, and `key=value` settings
  where the last line setting a key wins.
- `ChatInput`: the loop the three chatbots share. Input is stripped.
  "exit" in any case ends the loop. A blank line re-prompts. Any other
  line is answered.
- `Calendar`: the proleptic Gregorian dates of Python's `datetime.date`
  (years 1 to 9999), the next day, and the ISO format.
- `TaskChecker` (`task-checker-fn.py`): the DeepSeek call that retries
  only on status 503, with exponential backoff. Then the ```` ```json ````
  fence, the fallback record, and the Cosmos change-feed loop that
  stamps and upserts records.
- `SqlChatbot` (`oracledb_chatbot.py`, `postgres_chatbot.py`): one model
  for both scripts, parametrised by a `Dialect`. A dialect is the
  required connection keys plus whether column names are upper-cased.
  It covers the connection-file parser, the ```` ```sql ```` extractor
  with its refusal sentinel, SELECT versus commit, and the chat loop.
- `InconsistencyFinder` (`inconsistency_finder.py`): numbering of
  non-blank lines and the "return policy" filter. Then the post-processing
  of verdicts by a whole-word keyword search, and the pairwise comparison
  of files.
- `DocChatbot` (`doc_based_chatbot.py`): reading documents, rendering
  CSV rows, combining the context, normalising answers, and the chat.
- `ServerMetrics` (`server_metrics_failure_predictor_azure_ai.py`): the
  configuration file, the column check, the per-host window of the last
  100 rows, and the threshold flags. Then the summary, the label-splitting
  parse of predictions, and `main`.
- `TradeSummary` (`summary.py`): choosing the profit column, counting and
  summing trades, the percentages, and de-duplicating currency pairs.
  Then dispatch on extension, the output file name, and the run over the
  matching files.

Each operation is paired with one of these:

- an inverse, as in the round trips:
  - `SettingRoundTrip`, `ConfigLineRoundTrip` and `GenerateSqlRoundTrip`;
  - `JsonFenceRoundTrip` and `ParseLayout`;
  - `IsoRoundTrip`, `RowNumberRoundTrip` and `NameWithSuffix`;
  - `SplitOnJoin` and `JoinSplitOn`, through which `DocxParagraphs` and
    `PdfPages` read a joined text back into its parts;
- a completeness lemma, such as `NumberComplete`, `AlertsComplete`,
  `SourcesKeep`, `TableKeeps`, `AllCallsCover` and `PositionsCover`;
- an independent characterisation:
  - the slice between two occurrences, in `SqlBlockBetween`,
    `SegmentBetween` and `JsonFenceBetween`;
  - the list comprehension `Filter`, in `RowsOfFilter` and `TablePaths`;
  - growth by one more input, in `ReadDocumentsAppend` and `FilterAppend`;
  - the call count, in `CallCount`, and the backoff total, in `BackoffTotal`.

## Model

| member | source | states |
|---|---|---|
| Text.Strip | scripts/oracledb_chatbot.py:123 | `str.strip()`: the result has no leading or trailing whitespace. |
| Text.StripSpan | scripts/oracledb_chatbot.py:123 | The stripped text is a slice of the input with only whitespace cut off on each side. |
| Text.StripEmpty | scripts/doc_based_chatbot.py:162 | A string strips to "" exactly when it is all whitespace. |
| Text.StripSurrounded | scripts/oracledb_chatbot.py:126-127 | Stripping whitespace around trimmed text gives that text back. |
| Text.StripIdempotent | scripts/oracledb_chatbot.py:215-217 | Stripping twice is stripping once. |
| Text.StripKeepsNonSpace | scripts/oracledb_chatbot.py:123 | Stripping neither adds nor removes a non-whitespace character. |
| Text.StripChar | scripts/oracledb_chatbot.py:127 | `strip('"')`: the result neither starts nor ends with the character, and holds only characters of the input. |
| Text.StripCharSpan | scripts/oracledb_chatbot.py:127 | `strip(c)` keeps one slice of the input, and everything cut off on either side is `c`. |
| Text.RStripChar | scripts/oracledb_chatbot.py:217 | `rstrip(';')`: a prefix of the input that does not end in the character; everything removed is that character. |
| Text.RStripCharOf | scripts/oracledb_chatbot.py:217 | Text that does not end in `c`, followed by a run of `c`, loses exactly that run. |
| Text.FindFrom | scripts/oracledb_chatbot.py:213 | `str.find` from a position: the first occurrence at or after it, or none at all. |
| Text.FindLast | scripts/meeting_scheduler/function_app/check_tasks/task-checker-fn.py:88 | `str.rfind`: the last occurrence, or none at all. |
| Text.Partition | scripts/oracledb_chatbot.py:125 | `split('=', 1)`: None exactly when there is no separator; otherwise the text is the head, the separator and the tail, and the head has no separator. |
| Text.PartitionOf | scripts/oracledb_chatbot.py:125 | A key without the separator, then the separator and any rest, splits back into that key and that rest. |
| Text.BeforeFirst | scripts/oracledb_chatbot.py:123 | `split('#')[0]`: the longest prefix without the character. |
| Text.JoinNonEmptyParts | scripts/doc_based_chatbot.py:145 | Joining non-empty parts gives "" exactly when there are no parts. |
| Text.JoinAppend | scripts/doc_based_chatbot.py:145 | Joining one more part appends the separator and that part. |
| Text.SplitOn | scripts/doc_based_chatbot.py:101 | Splitting on a character gives at least one piece, and no piece holds it. |
| Text.SplitOnJoin | scripts/doc_based_chatbot.py:101 | Joining the pieces with the character gives the text back. |
| Text.JoinSplitOn | scripts/doc_based_chatbot.py:101 | Parts without the character, joined with it, split back into those parts. |
| Text.NatToStringRoundTrip | scripts/doc_based_chatbot.py:115 | The decimal digits of a number read back as the number. |
| Text.LowerOfUpper | scripts/inconsistency_finder.py:120 | Lower-casing after upper-casing is just lower-casing. |
| Paths.SplitExt | scripts/inconsistency_finder.py:109 | `os.path.splitext(p)[1]`: "" or a dot followed by no further dot or separator, ending the path. |
| Paths.SplitExtOf | scripts/inconsistency_finder.py:109 | Under any directory or none, a stem with a non-dot character followed by a dotted extension has that extension. |
| Paths.LeadingDotsAreNotExtension | scripts/doc_based_chatbot.py:130 | A name that is only leading dots before its last dot has no extension, as `splitext` treats ".txt". |
| Paths.StemSuffix | scripts/summary.py:209 | `Path.stem` and `Path.suffix` put together give the file name. |
| Paths.NameWithSuffix | scripts/summary.py:209-210 | A stem followed by a dotted extension splits back into that stem and that suffix. |
| Sequences.Dedup | scripts/server_metrics_failure_predictor_azure_ai.py:46 | `unique()`: every value exactly once, in the order of first appearance. |
| Sequences.DedupOrder | scripts/server_metrics_failure_predictor_azure_ai.py:46 | Two values in the order of `unique()` were first seen in that order. |
| Sequences.FilterKeeps | scripts/server_metrics_failure_predictor_azure_ai.py:52-59 | A filter keeps every element it accepts. |
| Sequences.FilterOrdered | scripts/server_metrics_failure_predictor_azure_ai.py:51-59 | A filter keeps the order of what it keeps. |
| Settings.Collect | scripts/oracledb_chatbot.py:128 | `config[key] = value` line by line: a key is set exactly when some line sets it, to the value of the last such line. |
| Settings.CollectLast | scripts/oracledb_chatbot.py:128 | The value of a key is that of the last line setting it. |
| Settings.Missing | scripts/oracledb_chatbot.py:129-130 | The missing keys are exactly the required keys not set, in the order they are required. |
| ChatInput.Classify | scripts/oracledb_chatbot.py:284-290 | A line quits exactly when its stripped, lower-cased text is "exit", is blank exactly when it strips to "", and otherwise asks its stripped text. |
| ChatInput.AskIsNotExit | scripts/doc_based_chatbot.py:208-211 | A question that is answered is never "exit" in any case. |
| ChatInput.Chat | scripts/doc_based_chatbot.py:207-218 | Turns come in input order and stop at the first "exit". Blank lines re-prompt. Every other line is answered once, with its position and stripped text. |
| Calendar.NextDay | scripts/meeting_scheduler/function_app/check_tasks/task-checker-fn.py:21 | `date + timedelta(days=1)`: a valid later date, with an overflow only on 9999-12-31. |
| Calendar.NextThenPrev | scripts/meeting_scheduler/function_app/check_tasks/task-checker-fn.py:21 | The day before the next day is the same day. |
| Calendar.NextDayIsImmediate | scripts/meeting_scheduler/function_app/check_tasks/task-checker-fn.py:21 | No valid date lies strictly between a day and its next day. |
| Calendar.ZeroPad | scripts/meeting_scheduler/function_app/check_tasks/task-checker-fn.py:21 | A zero-padded number reads back as the number and is at least as wide as asked. |
| Calendar.IsoRoundTrip | scripts/meeting_scheduler/function_app/check_tasks/task-checker-fn.py:21 | `isoformat()` is "YYYY-MM-DD" and parses back to the same date. |
| TaskChecker.Settle | scripts/meeting_scheduler/function_app/check_tasks/task-checker-fn.py:45-59 | A decisive attempt gives its reply on success, "API Error" with the status on another HTTP error, and "Request Error" on a transport failure or a body that is not JSON. |
| TaskChecker.CallFrom | scripts/meeting_scheduler/function_app/check_tasks/task-checker-fn.py:34-60 | Only 503 answers are retried. After attempt a it sleeps `delay * 2^a`. The call fails with "Max retries reached" exactly when every attempt answered 503. |
| TaskChecker.CallDeepseek | scripts/meeting_scheduler/function_app/check_tasks/task-checker-fn.py:32 | With the defaults, at most 3 sleeps, and "Max retries reached" exactly when there are 3. |
| TaskChecker.BackoffTotal | scripts/meeting_scheduler/function_app/check_tasks/task-checker-fn.py:52 | Sleeps of `delay * 2^i` for i below n add up to `delay * (2^n - 1)`. |
| TaskChecker.AllUnavailableExhausts | scripts/meeting_scheduler/function_app/check_tasks/task-checker-fn.py:33-60 | If every attempt answers 503, exactly `max_retries` requests and sleeps are made, sleeping `initial_delay * (2^max_retries - 1)` in all, and the call fails with "Max retries reached". |
| TaskChecker.FirstDecisiveAttempt | scripts/meeting_scheduler/function_app/check_tasks/task-checker-fn.py:46-59 | The first attempt that is not a 503 ends the call after k+1 requests and k sleeps, and its outcome is the call's. |
| TaskChecker.JsonFence | scripts/meeting_scheduler/function_app/check_tasks/task-checker-fn.py:87-90 | A fenced body is found only if the opener occurs. |
| TaskChecker.JsonFenceBetween | scripts/meeting_scheduler/function_app/check_tasks/task-checker-fn.py:87-90 | The body runs from the end of the first "```json\n" to the start of the last "\n```", and exists only when that closer starts strictly after the body's start. |
| TaskChecker.JsonFenceNeedsOpener | scripts/meeting_scheduler/function_app/check_tasks/task-checker-fn.py:87-94 | Without the opener there is no body, so the fallback is used. |
| TaskChecker.JsonFenceRoundTrip | scripts/meeting_scheduler/function_app/check_tasks/task-checker-fn.py:87-90 | A non-empty body put between the opener and the closer is found again. |
| TaskChecker.JsonFenceEmptyBody | scripts/meeting_scheduler/function_app/check_tasks/task-checker-fn.py:89 | An empty fence gives no body: the closer must start strictly after the body's start. |
| TaskChecker.DueDate | scripts/meeting_scheduler/function_app/check_tasks/task-checker-fn.py:21 | The due date is 20 characters ending in "T10:00:00Z". It fails only when tomorrow overflows. |
| TaskChecker.DueDateIsTomorrow | scripts/meeting_scheduler/function_app/check_tasks/task-checker-fn.py:21 | The date part of the due date reads back as tomorrow. |
| TaskChecker.Fallback | scripts/meeting_scheduler/function_app/check_tasks/task-checker-fn.py:18-30 | The fallback record has exactly four fields: `task_name` is the first min(n, 50) characters of the input, `due_date` is tomorrow at 10:00Z, `priority` is "Medium" and `processed` is true. It fails only on date overflow. |
| TaskChecker.ParseTask | scripts/meeting_scheduler/function_app/check_tasks/task-checker-fn.py:84-97 | A failed call gives the fallback only if an earlier call returned; otherwise the exception escapes. Any record is the fallback or the object decoded from the fence. |
| TaskChecker.ModelRecordUsed | scripts/meeting_scheduler/function_app/check_tasks/task-checker-fn.py:85-91 | A fenced body that decodes to an object is the record used. |
| TaskChecker.EligibleDocs | scripts/meeting_scheduler/function_app/check_tasks/task-checker-fn.py:74-77 | Every handled document has a non-empty `task_name` and is not processed. |
| TaskChecker.PositionsPick | scripts/meeting_scheduler/function_app/check_tasks/task-checker-fn.py:74-77 | The k-th handled document is the document at the k-th eligible index of the change feed. |
| TaskChecker.PositionsIncrease | scripts/meeting_scheduler/function_app/check_tasks/task-checker-fn.py:74 | Documents are handled in change-feed order. |
| TaskChecker.PositionsCover | scripts/meeting_scheduler/function_app/check_tasks/task-checker-fn.py:74-77 | Every eligible document is handled. |
| TaskChecker.Stamp | scripts/meeting_scheduler/function_app/check_tasks/task-checker-fn.py:99-101 | `id`, `created_at` and `processed` are set from the document, overriding the model's values. Every other field is kept. |
| TaskChecker.ParseDoc | scripts/meeting_scheduler/function_app/check_tasks/task-checker-fn.py:84-97 | The call returned exactly when its result is Ok. A failure before any call has returned yields no record. |
| TaskChecker.Handle | scripts/meeting_scheduler/function_app/check_tasks/task-checker-fn.py:99-103 | A record is upserted stamped. The loop continues exactly when there is a record, the document has an id, and the record names a task. |
| TaskChecker.Run | scripts/meeting_scheduler/function_app/check_tasks/task-checker-fn.py:74-105 | The k-th stored record carries the id, creation time and flag of the k-th eligible document. A completed run stores one record per eligible document, each naming a task. |
| TaskChecker.RunRecords | scripts/meeting_scheduler/function_app/check_tasks/task-checker-fn.py:84-102 | When parsing does not depend on earlier calls, each stored record is the parsed record of its document, stamped. |
| TaskChecker.ProcessTasks | scripts/meeting_scheduler/function_app/check_tasks/task-checker-fn.py:62-108 | An empty batch returns nothing. Otherwise each stored record carries the fields of the eligible document at the same place. A completed run stores one per eligible document. |
| TaskChecker.StoredRecords | scripts/meeting_scheduler/function_app/check_tasks/task-checker-fn.py:84-102 | When every call returns, the k-th stored record is the record parsed from the reply for the k-th eligible document, with that document's id, creation time and flag stamped over it. |
| TaskChecker.SkipIneligible | scripts/meeting_scheduler/function_app/check_tasks/task-checker-fn.py:74-77 | Ineligible documents are passed over without a call. |
| TaskChecker.FirstCallFailureEscapes | scripts/meeting_scheduler/function_app/check_tasks/task-checker-fn.py:84-108 | If the call for the first eligible document fails, the function raises with nothing stored. |
| TaskChecker.LaterCallFailureFallsBack | scripts/meeting_scheduler/function_app/check_tasks/task-checker-fn.py:95-97 | After an earlier call has returned, a failed call uses the fallback record. |
| SqlChatbot.ParseLine | scripts/oracledb_chatbot.py:123-127 | Text from the first '#' on is dropped. A line sets a key exactly when an '=' remains. The key is the stripped text before the first '=', and the value is the stripped rest with `strip('"')` applied. |
| SqlChatbot.ParseConfig | scripts/oracledb_chatbot.py:118-128 | No parsed value holds a '#'. |
| SqlChatbot.ParseConfigKeys | scripts/postgres_chatbot.py:112-122 | A key is set exactly when some line sets it. |
| SqlChatbot.ParseConfigLastWins | scripts/oracledb_chatbot.py:128 | A later line with the same key overwrites an earlier one. |
| SqlChatbot.StripCharQuoted | scripts/postgres_chatbot.py:121 | Stripping quotes from a quoted value gives back a value that has no quotes at its ends. |
| SqlChatbot.SettingRoundTrip | scripts/oracledb_chatbot.py:123-128 | The line `key="value"` parses back to that key and value. |
| SqlChatbot.ReadConnectionDetails | scripts/oracledb_chatbot.py:106-137 | A missing file and an unreadable file are distinct errors. Otherwise the result is the parsed map exactly when every required key is set. If not, it is exactly the missing keys, in the required order. |
| SqlChatbot.SqlBlock | scripts/oracledb_chatbot.py:213-215 | None exactly when there is no "```sql" followed by a "```". Otherwise the result is the stripped text between the first "```sql" and the first "```" after it. |
| SqlChatbot.SqlBlockBetween | scripts/oracledb_chatbot.py:213-215 | Given the first "```sql" and the first "```" after it, the block is the stripped text between them. |
| SqlChatbot.FencedBlock | scripts/oracledb_chatbot.py:213-215 | A trimmed query without a fence, put in a "```sql" fence on its own lines, is found again. |
| SqlChatbot.CleanSql | scripts/oracledb_chatbot.py:217 | After `rstrip(';').strip()` the statement is trimmed and holds no fence. |
| SqlChatbot.CleanSqlOf | scripts/oracledb_chatbot.py:217 | A body not ending in ';', followed by semicolons, cleans to the stripped body. |
| SqlChatbot.CleanSqlDropsSemicolons | scripts/oracledb_chatbot.py:217 | A trimmed query followed by semicolons cleans back to the query. |
| SqlChatbot.GenerateSql | scripts/oracledb_chatbot.py:208-227 | A failed model call or a reply without a block gives None. Otherwise the SQL is the cleaned block, unless it starts with the "-- Cannot generate" sentinel. |
| SqlChatbot.GenerateSqlRoundTrip | scripts/postgres_chatbot.py:212-221 | A clean query in a fence comes back unchanged. |
| SqlChatbot.ColumnNames | scripts/postgres_chatbot.py:234 | Postgres column names are the upper-cased names. Oracle column names are kept. |
| SqlChatbot.ExecuteQuery | scripts/oracledb_chatbot.py:229-246 | A statement is committed exactly when it ran and is not a SELECT. A SELECT returns its columns, plus its rows or "No results found" when there are none. A driver error returns "Error executing query: ..." with no columns. |
| SqlChatbot.IsQuery | scripts/oracledb_chatbot.py:234 | A statement is a query exactly when its first six characters after leading whitespace spell SELECT in any case. |
| SqlChatbot.IsQueryIgnoresCase | scripts/oracledb_chatbot.py:234 | Whether a statement is a query does not depend on its case. |
| SqlChatbot.LowerStripCommutes | scripts/postgres_chatbot.py:233 | Lower-casing and stripping commute. |
| SqlChatbot.Respond | scripts/oracledb_chatbot.py:292-308 | No SQL, or empty SQL, is never run. Other SQL is run once, exactly as generated. |
| SqlChatbot.Chatbot | scripts/postgres_chatbot.py:282-308 | Blank lines re-prompt. The loop stops at the first "exit" and otherwise consumes every line. Every other line gets the response to its stripped text. |
| SqlChatbot.ChatRunsOnlyGeneratedSql | scripts/oracledb_chatbot.py:293-301 | Every statement the chat runs is the non-empty cleaned SQL of that line's question. |
| InconsistencyFinder.Number | scripts/inconsistency_finder.py:93-102 | Only non-blank lines are kept, stripped, with their 1-based line numbers, which strictly increase. |
| InconsistencyFinder.NumberComplete | scripts/inconsistency_finder.py:93 | Every non-blank line is kept, with its number. |
| InconsistencyFinder.ExtractContent | scripts/inconsistency_finder.py:107-116 | An extension other than .txt or .docx (in any case), or an unreadable file, yields no entries. Otherwise the result is the numbered lines. |
| InconsistencyFinder.IsRelevant | scripts/inconsistency_finder.py:118-120 | A line is relevant exactly when some slice of it spells "return policy" in any case. |
| InconsistencyFinder.RelevanceIgnoresCase | scripts/inconsistency_finder.py:118-120 | Relevance, meaning the line contains "return policy" after lower-casing, does not depend on the line's case. |
| InconsistencyFinder.RelevantEntries | scripts/inconsistency_finder.py:168 | The kept entries are relevant entries of the file, and stay in increasing order. |
| InconsistencyFinder.RelevantKeeps | scripts/inconsistency_finder.py:168 | Every relevant entry is kept. |
| InconsistencyFinder.PostProcess | scripts/inconsistency_finder.py:143-145 | A verdict containing "Inconsistent" survives exactly when it has a whole-word keyword. Otherwise it becomes the fixed "Consistent: ..." text. |
| InconsistencyFinder.HasKeyword | scripts/inconsistency_finder.py:144 | The pattern matches only text that contains one of "days", "duration", "quantit" or "amount". |
| InconsistencyFinder.KeywordAlone | scripts/inconsistency_finder.py:144 | A keyword with no word character on either side is a match. |
| InconsistencyFinder.QuantityIsNotAKeyword | scripts/inconsistency_finder.py:144 | The word "quantity" does not match `\bquantit\b`. |
| InconsistencyFinder.CheckInconsistency | scripts/inconsistency_finder.py:122-149 | A down server or a failed call gives "Error". Only a real model verdict that keeps a keyword can report an inconsistency. |
| InconsistencyFinder.Table | scripts/inconsistency_finder.py:163-172 | Only files with relevant lines are kept, each with its relevant lines and each once. |
| InconsistencyFinder.TablePaths | scripts/inconsistency_finder.py:164-170 | The table's files are exactly the files with relevant lines, in glob order. |
| InconsistencyFinder.TableOrdered | scripts/inconsistency_finder.py:164-170 | Files enter the table in the order they are listed. |
| InconsistencyFinder.TableFirstSeen | scripts/inconsistency_finder.py:157-170 | The table's files are in the order of their first appearance among the matches. |
| InconsistencyFinder.TableKeeps | scripts/inconsistency_finder.py:166-170 | Every file with relevant lines is in the table. |
| InconsistencyFinder.PairCallsGrid | scripts/inconsistency_finder.py:185-187 | The check at position (x − a)·m + y compares line x of the first file with line y of the second. |
| InconsistencyFinder.PairCallsCount | scripts/inconsistency_finder.py:185-187 | There are n·m checks for n lines against m lines. |
| InconsistencyFinder.RowCallsCount | scripts/inconsistency_finder.py:180-187 | One file's lines against all later files give its count times their total. |
| InconsistencyFinder.LineCalls | scripts/inconsistency_finder.py:186-187 | One line of the first file is checked against each line of the second, in order. |
| InconsistencyFinder.PairCallsSound | scripts/inconsistency_finder.py:185-187 | Every check for a pair of files compares a relevant line of an earlier file with one of a later file and carries the judge's verdict on them. |
| InconsistencyFinder.RowCallsSound | scripts/inconsistency_finder.py:180-187 | The same for one file against all later files. |
| InconsistencyFinder.RowCallsCover | scripts/inconsistency_finder.py:180-187 | Every line of one file is checked against every line of every later file. |
| InconsistencyFinder.AllCallsSound | scripts/inconsistency_finder.py:180-187 | Every check compares an earlier file with a later one, using their relevant lines. |
| InconsistencyFinder.AllCallsCover | scripts/inconsistency_finder.py:180-187 | Every line of an earlier file is checked against every line of every later file. |
| InconsistencyFinder.AllCalls | scripts/inconsistency_finder.py:180-187 | With fewer than two files left there is no pair, so no check. |
| InconsistencyFinder.CallCount | scripts/inconsistency_finder.py:180-187 | The number of checks is the sum of \|A\|·\|B\| over the unordered file pairs. |
| InconsistencyFinder.AllCallsFrom | scripts/inconsistency_finder.py:180-187 | A check of one file against the later files is also made from any earlier starting file on. |
| InconsistencyFinder.CrossCountSquares | scripts/inconsistency_finder.py:180-187 | Twice the number of checks is the square of the total line count minus the sum of squares. |
| InconsistencyFinder.TimesIsProduct | scripts/inconsistency_finder.py:185-187 | The position offset used by the check grid is the product. |
| InconsistencyFinder.FindInconsistencies | scripts/inconsistency_finder.py:151-197 | Comparison happens exactly when the server is up, some files match, and at least two files have relevant lines. Every check pairs lines of an earlier and a later file and carries the post-processed verdict. Every report is a flagged check. |
| InconsistencyFinder.ComparedCovers | scripts/inconsistency_finder.py:180-187 | When the files are compared, every line pair of every two table files, earlier first, is checked. |
| InconsistencyFinder.FlaggedReported | scripts/inconsistency_finder.py:188-197 | Every check whose verdict contains "Inconsistent" is reported. |
| DocChatbot.RenderRowsFrom | scripts/doc_based_chatbot.py:113-115 | Every row is rendered in order with its own position, which is the default index `read_csv` gives it. |
| DocChatbot.CsvText | scripts/doc_based_chatbot.py:107-116 | The text is empty exactly when the frame has no rows. Without line breaks in the cells, its lines are the rendered rows, in order. |
| DocChatbot.RowNumberRoundTrip | scripts/doc_based_chatbot.py:115 | "Row {i}: " starts each rendered row, and its digits read back as the 1-based row number. |
| DocChatbot.RowLabelsDistinct | scripts/doc_based_chatbot.py:115 | Different rows get different labels. |
| DocChatbot.DocxText | scripts/doc_based_chatbot.py:97-102 | The text of a document is empty exactly when all its paragraphs are blank. |
| DocChatbot.KeptBlank | scripts/doc_based_chatbot.py:101 | Nothing is kept exactly when every paragraph is blank. |
| DocChatbot.DocxParagraphs | scripts/doc_based_chatbot.py:97-102 | With no line break inside a paragraph, the lines of the text are the non-blank paragraphs, in order. |
| DocChatbot.Load | scripts/doc_based_chatbot.py:126-140 | A missing file or an extension outside {.txt, .docx, .csv}, compared lower-cased, gives no text. Otherwise the text comes from the reader for that extension. |
| DocChatbot.SourcesFrom | scripts/doc_based_chatbot.py:126-143 | The files with text, each with its own text, in argument order. |
| DocChatbot.SourcesKeep | scripts/doc_based_chatbot.py:142-143 | No file with text is left out. |
| DocChatbot.Sections | scripts/doc_based_chatbot.py:143 | One headed section per file with text, in order. |
| DocChatbot.ReadDocuments | scripts/doc_based_chatbot.py:121-145 | The context is empty exactly when no file contributes text. |
| DocChatbot.ReadDocumentsAppend | scripts/doc_based_chatbot.py:121-145 | One more path adds "--- Content from {path} ---\n" and its text after a blank line when it has text, and nothing otherwise. |
| DocChatbot.SourcesAppend | scripts/doc_based_chatbot.py:126-143 | One more path adds its source at the end exactly when it has text. |
| DocChatbot.EmptyContext | scripts/doc_based_chatbot.py:142-145 | The context is empty exactly when every path loads to "". |
| DocChatbot.NoInformationIsAnAnswer | scripts/doc_based_chatbot.py:163 | The fixed message is itself a non-empty, non-generic answer. |
| DocChatbot.Answer | scripts/doc_based_chatbot.py:158-167 | The answer is the stripped reply unless that is empty or generic, or the call failed. Then it is the fixed message, so an answer is never empty or generic. |
| DocChatbot.AnswerIdempotent | scripts/doc_based_chatbot.py:160-164 | Normalising an answer again changes nothing. |
| DocChatbot.Converse | scripts/doc_based_chatbot.py:207-218 | Every question is answered from the whole context. Blank lines re-prompt, and "exit" ends the loop. |
| DocChatbot.Main | scripts/doc_based_chatbot.py:169-218 | It stops at the first failure: server, model, arguments, then empty context. Otherwise it chats over the context. |
| ServerMetrics.SplitSetting | scripts/server_metrics_failure_predictor_azure_ai.py:30-31 | A line fails exactly when it has no '='. Otherwise the key is the stripped text before the first '=' and the value the stripped rest. |
| ServerMetrics.Load | scripts/server_metrics_failure_predictor_azure_ai.py:26-32 | The first line without '=' is the error. The file loads exactly when every line has one, and the last line setting a key wins. |
| ServerMetrics.LoadConfig | scripts/server_metrics_failure_predictor_azure_ai.py:26-32 | `load_config` on the file's lines: the same contract, for the split lines. |
| ServerMetrics.HasRequiredColumns | scripts/server_metrics_failure_predictor_azure_ai.py:37-39 | The check passes exactly when every required column name is among the columns, so a table with fewer than seven columns never passes. |
| ServerMetrics.ConfigLineRoundTrip | scripts/server_metrics_failure_predictor_azure_ai.py:30-31 | The line `key=value` splits back to that key and value. |
| ServerMetrics.Hosts | scripts/server_metrics_failure_predictor_azure_ai.py:46 | Every host exactly once, each taken from the data, in the order of first appearance. |
| ServerMetrics.RowsOf | scripts/server_metrics_failure_predictor_azure_ai.py:47 | A host's rows are rows of the data for that host. |
| ServerMetrics.RowsOfFilter | scripts/server_metrics_failure_predictor_azure_ai.py:47 | A host's rows are exactly the samples of that host, in data order. |
| ServerMetrics.RowsOfLast | scripts/server_metrics_failure_predictor_azure_ai.py:47 | The host's last row in the data is the last of its rows. |
| ServerMetrics.Tail | scripts/server_metrics_failure_predictor_azure_ai.py:47 | `.tail(n)`: the last min(n, length) elements, in order. |
| ServerMetrics.Window | scripts/server_metrics_failure_predictor_azure_ai.py:47 | The window is the last min(n, 100) of the host's rows, in order. |
| ServerMetrics.WindowNonEmpty | scripts/server_metrics_failure_predictor_azure_ai.py:46-47 | A host that appears in the data has a non-empty window. |
| ServerMetrics.Peak | scripts/server_metrics_failure_predictor_azure_ai.py:53 | `max()`: a value of the column that no row exceeds. |
| ServerMetrics.Alerts | scripts/server_metrics_failure_predictor_azure_ai.py:51-59 | At most four flags, in CPU, memory, disk, storage order. Each is one that fires on the window, and none is the placeholder. |
| ServerMetrics.AlertsComplete | scripts/server_metrics_failure_predictor_azure_ai.py:52-59 | A flag is raised exactly when some row is strictly over its threshold: cpu > 80, memory > 80, disk > 20, or storage/500 > 0.9. |
| ServerMetrics.RecentErrors | scripts/server_metrics_failure_predictor_azure_ai.py:71 | The errors, or the placeholder exactly when there are none. |
| ServerMetrics.Summarise | scripts/server_metrics_failure_predictor_azure_ai.py:44-72 | The trend is 0 for a window of at most one row, and otherwise the slope of the window's CPU values. `error_count` is the number of flags, 0..4. `recent_errors` is never empty, and `storage_used` comes from the window's last row. |
| ServerMetrics.StorageUsedIsLatest | scripts/server_metrics_failure_predictor_azure_ai.py:68 | `storage_used` is the host's last sample in the data. |
| ServerMetrics.Summaries | scripts/server_metrics_failure_predictor_azure_ai.py:44-73 | One summary per host, in first-appearance order. |
| ServerMetrics.Segment | scripts/server_metrics_failure_predictor_azure_ai.py:108 | `split(mark)[1]`: None exactly when the mark is absent. Otherwise the text from the end of the first mark to the next mark or the end. |
| ServerMetrics.SegmentBetween | scripts/server_metrics_failure_predictor_azure_ai.py:108 | Given the first mark and the next one after it (or the end), the segment is the text between them. |
| ServerMetrics.LineAfter | scripts/server_metrics_failure_predictor_azure_ai.py:106-107 | `split(mark)[1].split('\n')[0]`: None exactly when the mark is absent. Otherwise the segment up to its first newline. |
| ServerMetrics.ParsePrediction | scripts/server_metrics_failure_predictor_azure_ai.py:104-108 | Fails exactly when a label is missing, with an error text the reply does not contain. Prediction and confidence are one line each, and the explanation stops before any second "Explanation: ". |
| ServerMetrics.ParsedFields | scripts/server_metrics_failure_predictor_azure_ai.py:104-108 | A parsed prediction's fields are the line after "Prediction: ", the line after "Confidence: ", and the segment after "Explanation: ". |
| ServerMetrics.ParseLayout | scripts/server_metrics_failure_predictor_azure_ai.py:106-108 | A reply laid out as the three labelled fields parses back to those fields. |
| ServerMetrics.ParseReply | scripts/server_metrics_failure_predictor_azure_ai.py:104-108 | A reply without content fails for its host, as `split` on None raises. A reply with content is a record exactly when it parses, and a missing mark is named. |
| ServerMetrics.SavePredictions | scripts/server_metrics_failure_predictor_azure_ai.py:102-112 | Saving succeeds exactly when every reply has content that parses, giving one record per host in order. Otherwise it names a host whose reply has no content or lacks a mark, with that error. |
| ServerMetrics.Predictions | scripts/server_metrics_failure_predictor_azure_ai.py:132-137 | Every host is asked in order with its own summary. The loop ends at the first host whose call raises, and it completes exactly when no call raises, giving each host its reply content. |
| ServerMetrics.Main | scripts/server_metrics_failure_predictor_azure_ai.py:115-147 | The steps in order: usage, configuration, columns, printing the summaries, settings, then asking and saving. Each outcome names the step that ended the run. Summaries of integer columns cannot be printed. A missing setting is reported only when there is a host, and it is the first one read (endpoint, key, model). |
| ServerMetrics.Loaded | scripts/server_metrics_failure_predictor_azure_ai.py:123-140 | After the settings file is read: a bad line, missing columns, unprintable summaries and the first missing setting come in that order, and otherwise the run asks and saves. |
| ServerMetrics.PredictAndSave | scripts/server_metrics_failure_predictor_azure_ai.py:132-140 | The run fails at the host whose call raised when some call raises. It fails at saving when a reply has no content or lacks a mark. Writing `predictions.csv` can fail after that. Only otherwise are the records saved. |
| ServerMetrics.SavedRecords | scripts/server_metrics_failure_predictor_azure_ai.py:132-140 | Each saved record belongs to the host in that position, whose call answered with content, and is the parse of that content. |
| TradeSummary.Column | scripts/summary.py:158 | A column holds the value at that position of every row. |
| TradeSummary.ProfitColumn | scripts/summary.py:148-154 | The first column whose lower-cased name is profit, p/l, pnl or profit/loss; None exactly when there is none. |
| TradeSummary.ProfitNameIgnoresCase | scripts/summary.py:150 | Whether a column names profit does not depend on its case. |
| TradeSummary.Numbers | scripts/summary.py:158-162 | The numbers of a column, exactly when every cell is a number. |
| TradeSummary.CountsBounded | scripts/summary.py:157-164 | Profitable plus loss-making trades never exceed the total. |
| TradeSummary.NetIsProfitPlusLoss | scripts/summary.py:160-162 | Net profit is total profit plus total loss. |
| TradeSummary.SignedSums | scripts/summary.py:158-161 | Total profit is at least 0 and total loss at most 0. |
| TradeSummary.Percent | scripts/summary.py:165-166 | 0 when there are no trades, otherwise count·100/total. |
| TradeSummary.PercentBounds | scripts/summary.py:165-166 | Two shares of the same trades are each at least 0 and together at most 100. |
| TradeSummary.Texts | scripts/summary.py:176 | The strings of a column, exactly when every cell is a string. |
| TradeSummary.UniqueTexts | scripts/summary.py:176 | None exactly when a cell is not text. Otherwise every text once, each from the cells, in the order of first appearance. |
| TradeSummary.CurrencyPairs | scripts/summary.py:176 | "N/A" exactly when there is no "Pair" column. Otherwise every pair appears once, each from the column, in the order of first appearance. |
| TradeSummary.Measure | scripts/summary.py:156-176 | The metrics: the counts, the sums, and net = profit + loss. The percentages are computed from the counts. |
| TradeSummary.MeasureShares | scripts/summary.py:165-166 | The two percentages are at least 0 and add up to at most 100. |
| TradeSummary.SummariseCsv | scripts/summary.py:140-191 | No summary when the server is down, no profit column exists, a cell has the wrong type, or the model fails. Otherwise it is the model's stripped answer for the metrics. |
| TradeSummary.SummariseText | scripts/summary.py:193-205 | The model's stripped answer, exactly when the server is up and the call succeeds. |
| TradeSummary.ReaderFor | scripts/summary.py:107-135 | The reader is chosen by the lower-cased suffix. |
| TradeSummary.ReaderForExtension | scripts/summary.py:110-133 | A reader is chosen exactly when the extension is one of its own. .doc and .docx share a reader. |
| TradeSummary.ReaderForUnsupported | scripts/summary.py:134-135 | No reader exactly when no reader takes the extension. |
| TradeSummary.ExtractText | scripts/summary.py:105-138 | An unsupported extension gives None, and so does Markdown. Word text is the non-blank paragraphs, PDF text the pages' texts. Plain text, RTF, HTML and CSV give their reader's output as is. |
| TradeSummary.PdfPages | scripts/summary.py:116-118 | With no line break inside a page, the lines of a PDF's text are its pages' texts, "" for a page without text. |
| TradeSummary.SummaryFileName | scripts/summary.py:209-210 | The output name starts with "summary_", ends with ".txt", and has no directory. |
| TradeSummary.SummaryFileNameParts | scripts/summary.py:209-210 | The output's stem is "summary_" plus the input's stem, and its suffix is ".txt". |
| TradeSummary.SummariseFile | scripts/summary.py:252-278 | Missing, unreadable or empty files are skipped with the matching reason. There is no summary exactly when the model gives none for a readable file. A summary comes from the CSV path or the text path by extension and is saved under the output name. |
| TradeSummary.Run | scripts/summary.py:243-278 | A pattern that is not a wildcard must exist, and it must match something. Otherwise every match is processed in glob order. |

## Left out

- Prompts, language-model clients and their replies: they are function
  parameters. A reply is arbitrary text or a failure, and in
  `server_metrics_failure_predictor_azure_ai.py` also a message without
  content. The same holds
  for the Oracle and PostgreSQL drivers, `requests`, `subprocess`
  (the server and model checks), `glob` and `os.path.exists`.
- The Cosmos connection and upserts in `task-checker-fn.py` are assumed
  to succeed. Creating the client (lines 70-72) or `upsert_item`
  (line 102) can raise, and `main` re-raises (lines 106-108): the run
  would then end with only the records upserted before the failure.
- File-reader libraries: python-docx, pdfplumber, striprtf,
  BeautifulSoup and `pandas.read_csv`. Their output is given as
  paragraphs, pages, text or rows. RTF, HTML and CSV text in
  `summary.py` is left as opaque library output. Markdown has no library
  output at all: `summary.py` passes `output_format='plain'`, which
  `markdown.markdown` rejects, so every `.md` file reads as None.
- Floating point: means, `np.polyfit` (the CPU trend is a parameter
  `slope`), `.2f` formatting and NaN. Profits and metrics are exact
  reals.
- Printing, `sys.exit`, `time.sleep` and logging. Sleeps are recorded in
  a trace. Exits become outcome values. Of `json.dumps` only its failure
  on numpy integers is modelled, as a flag saying whether the metric
  columns hold integers.
- `date.today()` is a parameter. Python's date range (years 1 to 9999) is
  modelled, so an overflow on 9999-12-31 is modelled too.
- `input()` at end of file (EOFError) is not modelled: the chat loops
  consume a finite sequence of lines and stop when it runs out.
- `pd.to_datetime` on the timestamp column and the conversion of the
  `Pair` column's values are not modelled. Column names are strings.
- The model-server check in `summary.py` runs once per call. The model
  treats it as one boolean for the whole run of that script.
- Case mapping and `\w` are ASCII only. Whitespace is Python's
  `str.isspace` set.
- Writing `summary_*.txt` can fail. `write_summary` catches the error
  and the loop goes on, so the failure is not modelled. Whether
  `predictions.csv` can be written is a parameter of ServerMetrics.Main.
- SqlChatbot.ParseConfig: its own contract states only that values hold
  no '#'. Which keys are set, and that the last line wins, are stated by
  SqlChatbot.ParseConfigKeys and SqlChatbot.ParseConfigLastWins.
- SqlChatbot.CleanSql: its own contract states only that the result is
  trimmed and holds no fence. What `rstrip(';').strip()` keeps is stated
  by SqlChatbot.CleanSqlOf for a body followed by semicolons; it does not
  promise that no ';' is left, since "a; ;" keeps one.
- TaskChecker.StoredRecords: pins each stored record only when every
  call returns. With a failed call the record depends on whether an
  earlier call returned, which TaskChecker.ParseTask states per document.
- The web handlers, the timer-triggered task query, the ZDM and Exadata
  scripts, the Spark notebooks and the mock data producer are not part of
  this model.
