/**
 The server-metrics failure predictor: a `key=value` settings file, a table
 of per-host samples, a summary of the last samples of each host with
 threshold flags, one model prediction per host, and the parse of each
 prediction into a record of the output table.
 */
module ServerMetrics {
  import opened Wrappers
  import opened Text
  import opened Sequences
  import opened Settings

  // ---------------------------------------------------------------------
  // Settings file
  // ---------------------------------------------------------------------

  /**
   One settings line: split at its first '=' after stripping the line, with
   both sides stripped; None where Python's unpacking of the split fails.
   */
  function SplitSetting(line: string): (r: Setting)
    ensures r.None? <==> '=' !in line
    ensures r.Some? ==> Trimmed(r.value.0) && Trimmed(r.value.1) && '=' !in r.value.0
    ensures r.Some? ==> SplitOf(Strip(line), r.value)
  {
    var text := Strip(line);
    StripKeepsNonSpace(line, '=');
    match Partition(text, '=')
    case None => None
    case Some((k, v)) =>
      StripKeepsNonSpace(k, '=');
      assert text == k + "=" + v;
      Some((Strip(k), Strip(v)))
  }

  /**
   `text` is a key, an '=', and a value, with no '=' in the key, and `kv` is
   the key and the value, each stripped.
   */
  ghost predicate SplitOf(text: string, kv: (string, string)) {
    exists k, v :: text == k + "=" + v && '=' !in k && kv == (Strip(k), Strip(v))
  }

  /** The position of the first setting that is None, if any. */
  function FirstBad(settings: seq<Setting>): (r: Option<nat>)
    ensures r.None? <==> forall i :: 0 <= i < |settings| ==> settings[i].Some?
    ensures r.Some? ==> (r.value < |settings| && settings[r.value].None?
      && forall i :: 0 <= i < r.value ==> settings[i].Some?)
  {
    if |settings| == 0 then None
    else if settings[0].None? then Some(0)
    else match FirstBad(settings[1..])
      case None => None
      case Some(i) => Some(i + 1)
  }

  /**
   The settings of the lines, or the position of the first line that sets
   nothing; `settings` holds one entry per line, None exactly for the lines
   without '='.
   */
  function Load(lines: seq<string>, settings: seq<Setting>): (r: Result<map<string, string>, nat>)
    requires |settings| == |lines|
    requires forall i :: 0 <= i < |lines| ==> (settings[i].None? <==> '=' !in lines[i])
    ensures r.Err? ==> (r.error < |lines| && '=' !in lines[r.error]
      && forall i :: 0 <= i < r.error ==> '=' in lines[i])
    ensures r.Ok? <==> forall i :: 0 <= i < |lines| ==> '=' in lines[i]
    ensures r.Ok? ==> r.value == Collect(settings)
  {
    match FirstBad(settings)
    case Some(i) => Err(i)
    case None => Ok(Collect(settings))
  }

  /**
   `load_config`: the settings of every line, later lines overriding
   earlier ones, or the position of the first line without '=' (where the
   script raises ValueError).
   */
  function LoadConfig(lines: seq<string>): (r: Result<map<string, string>, nat>)
    ensures r.Err? ==> (r.error < |lines| && '=' !in lines[r.error]
      && forall i :: 0 <= i < r.error ==> '=' in lines[i])
    ensures r.Ok? <==> forall i :: 0 <= i < |lines| ==> '=' in lines[i]
    ensures r.Ok? ==> r.value == Collect(Map(SplitSetting, lines))
  {
    Load(lines, Map(SplitSetting, lines))
  }

  /** `key=value` followed by a newline. */
  function ConfigLine(key: string, value: string): string {
    key + "=" + value + "\n"
  }

  lemma StripConfigLine(key: string, value: string)
    requires Trimmed(key) && Trimmed(value)
    ensures Strip(ConfigLine(key, value)) == key + ['='] + value
  {
    var body := key + ['='] + value;
    assert ConfigLine(key, value) == "" + body + "\n";
    assert body[0] == if |key| > 0 then key[0] else '=';
    assert body[|body| - 1] == if |value| > 0 then value[|value| - 1] else '=';
    StripSurrounded("", body, "\n");
  }

  /** A line written as `key=value` reads back as the same key and value. */
  lemma ConfigLineRoundTrip(key: string, value: string)
    requires Trimmed(key) && Trimmed(value) && '=' !in key
    ensures SplitSetting(ConfigLine(key, value)) == Some((key, value))
  {
    StripConfigLine(key, value);
    PartitionAt(key, value);
    StripOfTrimmed(key);
    StripOfTrimmed(value);
  }

  /** The settings the prediction calls read, in the order they are read. */
  const RequiredSettings: seq<string> :=
    ["AZURE_AI_FOUNDRY_ENDPOINT", "AZURE_AI_FOUNDRY_KEY", "AZURE_AI_FOUNDRY_MODEL"]

  // ---------------------------------------------------------------------
  // Samples and summaries
  // ---------------------------------------------------------------------

  const RequiredColumns: seq<string> :=
    ["timestamp", "host", "cpu_usage_percent", "memory_usage_percent", "disk_io_mb_s", "network_io_mb_s", "storage_used_gb"]

  /**
   `load_server_data`'s check that every required column is present; a
   table with fewer columns than there are required names never passes.
   */
  predicate HasRequiredColumns(columns: seq<string>)
    ensures HasRequiredColumns(columns) <==> forall c :: c in RequiredColumns ==> c in columns
    ensures HasRequiredColumns(columns) ==> |columns| >= |RequiredColumns|
  {
    if forall k :: 0 <= k < |RequiredColumns| ==> RequiredColumns[k] in columns then
      DistinctWithin(RequiredColumns, columns);
      true
    else false
  }

  /** One row of the data, with exact values in place of pandas floats. */
  datatype Sample = Sample(host: string, cpu: real, memory: real, disk: real, network: real, storage: real)

  const CpuThreshold: real := 80.0
  const MemoryThreshold: real := 80.0
  const DiskThreshold: real := 20.0
  const StorageCapacity: real := 500.0
  const DataWindow: nat := 100

  function HostOf(s: Sample): string {
    s.host
  }

  /** `df['host'].unique()` */
  function Hosts(samples: seq<Sample>): (r: seq<string>)
    ensures Distinct(r)
    ensures forall k :: 0 <= k < |r| ==> r[k] in Map(HostOf, samples)
    ensures forall i :: 0 <= i < |samples| ==> samples[i].host in r
    ensures forall i, j :: 0 <= i < j < |r| ==>
      FirstIndex(Map(HostOf, samples), r[i]) < FirstIndex(Map(HostOf, samples), r[j])
  {
    var hosts := Map(HostOf, samples);
    assert forall i :: 0 <= i < |samples| ==> hosts[i] == samples[i].host;
    Dedup(hosts)
  }

  /** The mask `df['host'] == host`. */
  function OnHost(host: string): Sample -> bool {
    (s: Sample) => s.host == host
  }

  /**
   `df[df['host'] == host]`: the samples of one host, in their order, which
   is the comprehension `[s for s in samples if s.host == host]`.
   */
  function RowsOf(samples: seq<Sample>, host: string): (r: seq<Sample>)
    ensures |r| <= |samples|
    ensures forall k :: 0 <= k < |r| ==> r[k] in samples && r[k].host == host
    decreases |samples|
  {
    if |samples| == 0 then []
    else
      var n := |samples| - 1;
      var prev := RowsOf(samples[..n], host);
      assert forall k :: 0 <= k < |prev| ==> prev[k] in samples;
      if samples[n].host == host then prev + [samples[n]] else prev
  }

  /** The rows of a host are exactly the samples the mask selects, in their order. */
  lemma {:induction false} RowsOfFilter(samples: seq<Sample>, host: string)
    ensures RowsOf(samples, host) == Filter(OnHost(host), samples)
    decreases |samples|
  {
    if |samples| > 0 {
      var n := |samples| - 1;
      RowsOfFilter(samples[..n], host);
      assert samples == samples[..n] + [samples[n]];
      FilterAppend(OnHost(host), samples[..n], samples[n]);
    }
  }

  /** The last sample of a host is the last of its rows. */
  lemma {:induction false} RowsOfLast(samples: seq<Sample>, host: string, i: nat)
    requires i < |samples| && samples[i].host == host
    requires forall j :: i < j < |samples| ==> samples[j].host != host
    ensures var r := RowsOf(samples, host); |r| > 0 && r[|r| - 1] == samples[i]
    decreases |samples|
  {
    var n := |samples| - 1;
    if i < n {
      assert samples[..n][i] == samples[i];
      RowsOfLast(samples[..n], host, i);
    }
  }

  /** A host that has a sample has rows. */
  lemma RowsOfNonEmpty(samples: seq<Sample>, host: string)
    requires host in Map(HostOf, samples)
    ensures |RowsOf(samples, host)| > 0
  {
    var hosts := Map(HostOf, samples);
    var i :| 0 <= i < |hosts| && hosts[i] == host;
    RowsOfHas(samples, host, i);
  }

  lemma {:induction false} RowsOfHas(samples: seq<Sample>, host: string, i: nat)
    requires i < |samples| && samples[i].host == host
    ensures |RowsOf(samples, host)| > 0
    decreases |samples|
  {
    var n := |samples| - 1;
    if samples[n].host != host {
      assert samples[..n][i] == samples[i];
      RowsOfHas(samples[..n], host, i);
    }
  }

  /** `.tail(n)`: the last min(n, |xs|) elements, in order. */
  function Tail<T>(xs: seq<T>, n: nat): (r: seq<T>)
    ensures |r| == if |xs| < n then |xs| else n
    ensures r == xs[|xs| - |r|..]
  {
    if |xs| <= n then xs else xs[|xs| - n..]
  }

  /** The samples a host's summary is computed from: its last `DataWindow` rows. */
  function Window(samples: seq<Sample>, host: string): (r: seq<Sample>)
    ensures |r| <= DataWindow
    ensures forall k :: 0 <= k < |r| ==> r[k] in samples && r[k].host == host
    ensures var rows := RowsOf(samples, host);
      |r| == (if |rows| < DataWindow then |rows| else DataWindow) && r == rows[|rows| - |r|..]
  {
    var rows := RowsOf(samples, host);
    var w := Tail(rows, DataWindow);
    assert forall k :: 0 <= k < |w| ==> w[k] == rows[|rows| - |w| + k];
    w
  }

  /** A threshold alert with the peak value it reports, or the placeholder when none fires. */
  datatype Alert =
    | HighCpu(peak: real)
    | HighMemory(peak: real)
    | HighDiskIo(peak: real)
    | HighStorage(peak: real)
    | NoCriticalIssues

  /** The position of an alert's check in `preprocess_data`. */
  function Rank(a: Alert): nat {
    match a
    case HighCpu(_) => 0
    case HighMemory(_) => 1
    case HighDiskIo(_) => 2
    case HighStorage(_) => 3
    case NoCriticalIssues => 4
  }

  function MaxOf(xs: seq<real>): (m: real)
    requires |xs| > 0
    ensures m in xs && forall k :: 0 <= k < |xs| ==> xs[k] <= m
  {
    if |xs| == 1 then xs[0]
    else
      var rest := MaxOf(xs[1..]);
      if xs[0] >= rest then xs[0] else rest
  }

  function Cpu(s: Sample): real { s.cpu }
  function Memory(s: Sample): real { s.memory }
  function DiskIo(s: Sample): real { s.disk }
  function Storage(s: Sample): real { s.storage }

  /** `column.max()`: a value of the column that no other value exceeds. */
  function Peak(window: seq<Sample>, column: Sample -> real): (m: real)
    requires |window| > 0
    ensures exists k :: 0 <= k < |window| && column(window[k]) == m
    ensures forall k :: 0 <= k < |window| ==> column(window[k]) <= m
  {
    var xs := Map(column, window);
    var m := MaxOf(xs);
    var k :| 0 <= k < |xs| && xs[k] == m;
    assert column(window[k]) == m;
    m
  }

  predicate CpuHigh(s: Sample) { s.cpu > CpuThreshold }
  predicate MemoryHigh(s: Sample) { s.memory > MemoryThreshold }
  predicate DiskIoHigh(s: Sample) { s.disk > DiskThreshold }
  predicate StorageHigh(s: Sample) { s.storage / StorageCapacity > 0.9 }

  /** `(condition).any()` over the window. */
  predicate Any(window: seq<Sample>, p: Sample -> bool) {
    exists k :: 0 <= k < |window| && p(window[k])
  }

  /** Whether the check that raises `a` fires on the window. */
  predicate Fires(window: seq<Sample>, a: Alert) {
    match a
    case HighCpu(_) => Any(window, CpuHigh)
    case HighMemory(_) => Any(window, MemoryHigh)
    case HighDiskIo(_) => Any(window, DiskIoHigh)
    case HighStorage(_) => Any(window, StorageHigh)
    case NoCriticalIssues => false
  }

  /** The alert each check would raise, in check order. */
  function Candidates(window: seq<Sample>): (r: seq<Alert>)
    requires |window| > 0
    ensures Ordered(r, Rank)
  {
    [HighCpu(Peak(window, Cpu)), HighMemory(Peak(window, Memory)),
     HighDiskIo(Peak(window, DiskIo)), HighStorage(Peak(window, Storage))]
  }

  /**
   The four checks of `preprocess_data`: the alerts whose check fires, each
   reporting its column's peak, in check order.
   */
  function Alerts(window: seq<Sample>): (r: seq<Alert>)
    requires |window| > 0
    ensures |r| <= 4 && NoCriticalIssues !in r
    ensures forall k :: 0 <= k < |r| ==> r[k] in Candidates(window) && Fires(window, r[k])
    ensures Ordered(r, Rank)
  {
    var xs := Candidates(window);
    var fires := a => Fires(window, a);
    FilterOrdered(fires, xs, Rank);
    Filter(fires, xs)
  }

  /** Each check raises its alert exactly when some sample of the window exceeds its threshold. */
  lemma AlertsComplete(window: seq<Sample>)
    requires |window| > 0
    ensures HighCpu(Peak(window, Cpu)) in Alerts(window) <==> Any(window, CpuHigh)
    ensures HighMemory(Peak(window, Memory)) in Alerts(window) <==> Any(window, MemoryHigh)
    ensures HighDiskIo(Peak(window, DiskIo)) in Alerts(window) <==> Any(window, DiskIoHigh)
    ensures HighStorage(Peak(window, Storage)) in Alerts(window) <==> Any(window, StorageHigh)
  {
    CandidateRaised(window, 0);
    CandidateRaised(window, 1);
    CandidateRaised(window, 2);
    CandidateRaised(window, 3);
  }

  /** The `i`-th check's alert is raised exactly when that check fires. */
  lemma CandidateRaised(window: seq<Sample>, i: nat)
    requires |window| > 0 && i < 4
    ensures Candidates(window)[i] in Alerts(window) <==> Fires(window, Candidates(window)[i])
  {
    var xs := Candidates(window);
    var fires := a => Fires(window, a);
    assert Alerts(window) == Filter(fires, xs);
    if Fires(window, xs[i]) {
      FilterKeeps(fires, xs, i);
    }
  }

  /** The alerts, or the placeholder when there are none. */
  function RecentErrors(alerts: seq<Alert>): (r: seq<Alert>)
    requires NoCriticalIssues !in alerts
    ensures r == [NoCriticalIssues] <==> |alerts| == 0
    ensures |alerts| > 0 ==> r == alerts
  {
    if |alerts| > 0 then alerts else [NoCriticalIssues]
  }

  /** A host that has a sample has a non-empty window. */
  lemma WindowNonEmpty(samples: seq<Sample>, host: string)
    requires host in Map(HostOf, samples)
    ensures |Window(samples, host)| > 0
  {
    RowsOfNonEmpty(samples, host);
  }

  /** The summary of one host that the prediction prompt shows. */
  datatype Summary = Summary(
    host: string,
    window: seq<Sample>,
    cpuTrend: real,
    storageUsed: real,
    errorCount: nat,
    recentErrors: seq<Alert>)

  /**
   One host's summary. `slope` is the least-squares slope `np.polyfit`
   fits to the CPU values, consulted only for windows of two or more samples.
   */
  function Summarise(samples: seq<Sample>, host: string, slope: seq<real> -> real): (s: Summary)
    requires host in Map(HostOf, samples)
    ensures s.host == host && s.window == Window(samples, host) && |s.window| > 0
    ensures |s.window| <= 1 ==> s.cpuTrend == 0.0
    ensures |s.window| > 1 ==> s.cpuTrend == slope(Map(Cpu, s.window))
    ensures s.storageUsed == s.window[|s.window| - 1].storage
    ensures s.errorCount == |Alerts(s.window)| <= 4
    ensures s.errorCount == 0 <==> s.recentErrors == [NoCriticalIssues]
    ensures s.errorCount > 0 ==> s.recentErrors == Alerts(s.window)
  {
    WindowNonEmpty(samples, host);
    var w := Window(samples, host);
    var alerts := Alerts(w);
    var trend := if |w| > 1 then slope(Map(Cpu, w)) else 0.0;
    Summary(host, w, trend, w[|w| - 1].storage, |alerts|, RecentErrors(alerts))
  }

  /** `storage_used` is the storage of the host's last sample in the whole table. */
  lemma StorageUsedIsLatest(samples: seq<Sample>, host: string, slope: seq<real> -> real, i: nat)
    requires i < |samples| && samples[i].host == host
    requires forall j :: i < j < |samples| ==> samples[j].host != host
    ensures host in Map(HostOf, samples)
    ensures Summarise(samples, host, slope).storageUsed == samples[i].storage
  {
    assert Map(HostOf, samples)[i] == host;
    WindowLast(samples, host, i);
    var s := Summarise(samples, host, slope);
    assert s.window == Window(samples, host);
  }

  /** The last sample of a host's window is its last sample in the table. */
  lemma WindowLast(samples: seq<Sample>, host: string, i: nat)
    requires i < |samples| && samples[i].host == host
    requires forall j :: i < j < |samples| ==> samples[j].host != host
    ensures var w := Window(samples, host); |w| > 0 && w[|w| - 1] == samples[i]
  {
    RowsOfLast(samples, host, i);
    var rows := RowsOf(samples, host);
    var w := Window(samples, host);
    assert w[|w| - 1] == rows[|rows| - 1];
  }

  /** `preprocess_data`: one summary per host, hosts in order of first appearance. */
  function Summaries(samples: seq<Sample>, slope: seq<real> -> real): (r: seq<Summary>)
    ensures |r| == |Hosts(samples)|
    ensures forall k :: 0 <= k < |r| ==> r[k] == Summarise(samples, Hosts(samples)[k], slope)
  {
    var hosts := Hosts(samples);
    seq(|hosts|, k requires 0 <= k < |hosts| => Summarise(samples, hosts[k], slope))
  }

  // ---------------------------------------------------------------------
  // Parsing predictions
  // ---------------------------------------------------------------------

  const PredictionLabel: string := "Prediction: "
  const ConfidenceLabel: string := "Confidence: "
  const ExplanationLabel: string := "Explanation: "

  /**
   `text.split(mark)[1]`: the text after the first occurrence of `mark`,
   up to its second occurrence if any; None where the index raises.
   */
  function Segment(text: string, mark: string): (r: Option<string>)
    requires |mark| > 0
    ensures r.None? <==> !Contains(text, mark)
    ensures r.Some? ==> !Contains(r.value, mark)
    ensures r.Some? ==> SegmentOf(text, mark, r.value)
  {
    match FindFrom(text, mark, 0)
    case None => None
    case Some(i) =>
      var b := i + |mark|;
      var e := PieceEnd(text, mark, b);
      FirstPiece(text, mark, i, b);
      PieceFacts(text, mark, i, e);
      Some(text[b..e])
  }

  /** Where the search for the next `mark` from `b` on stops: its start, or the end of the text. */
  function PieceEnd(text: string, mark: string, b: nat): (e: nat)
    requires b <= |text|
    ensures b <= e <= |text|
  {
    match FindFrom(text[b..], mark, 0)
    case None => |text|
    case Some(j) => b + j
  }

  /** The first mark and the search after it delimit a piece. */
  lemma FirstPiece(text: string, mark: string, i: nat, b: nat)
    requires |mark| > 0 && FindFrom(text, mark, 0) == Some(i) && b == i + |mark|
    ensures Piece(text, mark, i, PieceEnd(text, mark, b))
  {
    var e := PieceEnd(text, mark, b);
    var rest := text[b..];
    match FindFrom(rest, mark, 0)
    case None =>
      SecondMark(text, mark, i, b, e);
    case Some(j) =>
      SecondMark(text, mark, i, b, e);
  }

  /**
   `i` is the first occurrence of `mark` in `text`, and `e` is where the
   piece after it ends: the next occurrence, or the end of the text when
   there is none.
   */
  predicate Piece(text: string, mark: string, i: nat, e: nat) {
    && OccursAt(text, mark, i) && (forall j :: 0 <= j < i ==> !OccursAt(text, mark, j))
    && i + |mark| <= e <= |text|
    && (e == |text| || OccursAt(text, mark, e))
    && (forall j :: i + |mark| <= j < e ==> !OccursAt(text, mark, j))
  }

  /** `seg` is the piece of `text` between its first and second occurrences of `mark`. */
  ghost predicate SegmentOf(text: string, mark: string, seg: string) {
    exists i: nat, e: nat :: Piece(text, mark, i, e) && seg == text[i + |mark|..e]
  }

  /** The second search, inside the rest after the first mark, ends the piece at `e`. */
  lemma SecondMark(text: string, mark: string, i: nat, b: nat, e: nat)
    requires OccursAt(text, mark, i) && forall j :: 0 <= j < i ==> !OccursAt(text, mark, j)
    requires b == i + |mark| && b <= e <= |text|
    requires forall j :: 0 <= j < e - b ==> !OccursAt(text[b..], mark, j)
    requires e < |text| ==> OccursAt(text[b..], mark, e - b)
    ensures Piece(text, mark, i, e)
  {
    RestClear(text, mark, b, e - b);
    if e < |text| {
      RestOccurs(text, mark, b, e - b);
    }
  }

  lemma RestOccurs(text: string, mark: string, b: nat, j: nat)
    requires b <= |text| && OccursAt(text[b..], mark, j)
    ensures OccursAt(text, mark, b + j)
  {
    assert text[b..|text|] == text[b..];
    SliceOccurs(text, b, |text|, mark, j);
  }

  /** The text of a piece holds no mark, and it is the segment the piece defines. */
  lemma PieceFacts(text: string, mark: string, i: nat, e: nat)
    requires |mark| > 0 && Piece(text, mark, i, e)
    ensures !Contains(text[i + |mark|..e], mark) && SegmentOf(text, mark, text[i + |mark|..e])
  {
    var b := i + |mark|;
    forall j | 0 <= j ensures !OccursAt(text[b..e], mark, j) {
      SliceOccurs(text, b, e, mark, j);
    }
  }

  /** No mark starts in the first `n` positions of `text[b..]`, so none starts in `text[b..b + n]`. */
  lemma RestClear(text: string, mark: string, b: nat, n: nat)
    requires b + n <= |text|
    requires forall j :: 0 <= j < n ==> !OccursAt(text[b..], mark, j)
    ensures forall j :: b <= j < b + n ==> !OccursAt(text, mark, j)
  {
    assert text[b..|text|] == text[b..];
    forall j | b <= j < b + n ensures !OccursAt(text, mark, j) {
      if j + |mark| <= |text| {
        SliceOccursBack(text, b, |text|, mark, j);
      }
    }
  }

  /** The piece after the first mark, up to the next mark or the end, is the segment. */
  lemma SegmentBetween(text: string, mark: string, i: nat, e: nat)
    requires |mark| > 0 && Piece(text, mark, i, e)
    ensures Segment(text, mark) == Some(text[i + |mark|..e])
  {
    var b := i + |mark|;
    assert FindFrom(text, mark, 0) == Some(i);
    NextSearch(text, mark, b, e);
  }

  /** The search after the first mark stops at the end of the piece. */
  lemma NextSearch(text: string, mark: string, b: nat, e: nat)
    requires |mark| > 0 && b <= e <= |text| && (e == |text| || OccursAt(text, mark, e))
    requires forall j :: b <= j < e ==> !OccursAt(text, mark, j)
    ensures PieceEnd(text, mark, b) == e
  {
    var rest := text[b..];
    assert rest == text[b..|text|];
    forall j | 0 <= j < e - b ensures !OccursAt(rest, mark, j) {
      SliceOccurs(text, b, |text|, mark, j);
    }
    if e < |text| {
      SliceOccursBack(text, b, |text|, mark, e);
      assert FindFrom(rest, mark, 0) == Some(e - b);
    } else {
      forall j | 0 <= j ensures !OccursAt(rest, mark, j) {
        SliceOccurs(text, b, |text|, mark, j);
      }
      assert FindFrom(rest, mark, 0).None?;
    }
  }

  /** `text.split(mark)[1].split('\n')[0]` */
  function LineAfter(text: string, mark: string): (r: Option<string>)
    requires |mark| > 0
    ensures r.None? <==> !Contains(text, mark)
    ensures r.Some? ==> '\n' !in r.value
    ensures r.Some? ==> (Segment(text, mark).Some? &&
      var seg := Segment(text, mark).value;
      StartsWith(seg, r.value) && (|r.value| == |seg| || seg[|r.value|] == '\n'))
  {
    match Segment(text, mark)
    case None => None
    case Some(seg) => Some(BeforeFirst(seg, '\n'))
  }

  /** A row of the predictions table. */
  datatype Record = Record(host: string, prediction: string, confidence: string, explanation: string)

  /** The three fields of a prediction, or the first mark it lacks. */
  function ParsePrediction(host: string, text: string): (r: Result<Record, string>)
    ensures r.Err? <==> !Contains(text, PredictionLabel) || !Contains(text, ConfidenceLabel) || !Contains(text, ExplanationLabel)
    ensures r.Err? ==> !Contains(text, r.error)
    ensures r.Ok? ==> r.value.host == host && '\n' !in r.value.prediction && '\n' !in r.value.confidence
    ensures r.Ok? ==> !Contains(r.value.explanation, ExplanationLabel)
  {
    match LineAfter(text, PredictionLabel)
    case None => Err(PredictionLabel)
    case Some(p) =>
      match LineAfter(text, ConfidenceLabel)
      case None => Err(ConfidenceLabel)
      case Some(c) =>
        match Segment(text, ExplanationLabel)
        case None => Err(ExplanationLabel)
        case Some(e) => Ok(Record(host, p, c, e))
  }

  /** `mark` occurs in `s` at `i` and nowhere else. */
  predicate OnlyAt(s: string, mark: string, i: nat) {
    OccursAt(s, mark, i) && forall j :: 0 <= j < |s| && OccursAt(s, mark, j) ==> j == i
  }

  /** A mark that occurs once is followed by the whole rest of the text. */
  lemma SegmentOfUnique(s: string, mark: string, i: nat)
    requires |mark| > 0 && OnlyAt(s, mark, i)
    ensures Segment(s, mark) == Some(s[i + |mark|..])
  {
    assert Piece(s, mark, i, |s|);
    SegmentBetween(s, mark, i, |s|);
    assert s[i + |mark|..|s|] == s[i + |mark|..];
  }

  /** The line after a mark that occurs once, when that line ends in a newline. */
  lemma LineAfterUnique(s: string, mark: string, i: nat, x: string, rest: string)
    requires |mark| > 0 && OnlyAt(s, mark, i) && i + |mark| <= |s|
    requires s[i + |mark|..] == x + "\n" + rest && '\n' !in x
    ensures LineAfter(s, mark) == Some(x)
  {
    SegmentOfUnique(s, mark, i);
    var seg := x + "\n" + rest;
    assert seg[..|x|] == x && seg[|x|] == '\n';
    assert IndexOf(seg, '\n') == Some(|x|);
  }

  /** A prediction in the layout the prompt asks for. */
  function Layout(p: string, c: string, e: string): string {
    PredictionLabel + p + "\n" + (ConfidenceLabel + c + "\n" + (ExplanationLabel + e))
  }

  /** Where the confidence label starts in `Layout(p, c, e)`. */
  function ConfidenceAt(p: string): nat { |PredictionLabel| + |p| + 1 }

  /** Where the explanation label starts in `Layout(p, c, e)`. */
  function ExplanationAt(p: string, c: string): nat { ConfidenceAt(p) + |ConfidenceLabel| + |c| + 1 }

  /**
   The fields of a parsed record are the line after "Prediction: ", the
   line after "Confidence: " and the segment after "Explanation: ".
   */
  lemma ParsedFields(host: string, text: string)
    requires ParsePrediction(host, text).Ok?
    ensures var r := ParsePrediction(host, text).value;
      && LineAfter(text, PredictionLabel) == Some(r.prediction)
      && LineAfter(text, ConfidenceLabel) == Some(r.confidence)
      && Segment(text, ExplanationLabel) == Some(r.explanation)
  {
  }

  /** The three fields found in a text make up its record. */
  lemma ParseFields(host: string, s: string, p: string, c: string, e: string)
    requires LineAfter(s, PredictionLabel) == Some(p)
    requires LineAfter(s, ConfidenceLabel) == Some(c)
    requires Segment(s, ExplanationLabel) == Some(e)
    ensures ParsePrediction(host, s) == Ok(Record(host, p, c, e))
  {
  }

  lemma PredictionField(p: string, c: string, e: string)
    requires '\n' !in p && OnlyAt(Layout(p, c, e), PredictionLabel, 0)
    ensures LineAfter(Layout(p, c, e), PredictionLabel) == Some(p)
  {
    var s := Layout(p, c, e);
    var t2 := ConfidenceLabel + c + "\n" + (ExplanationLabel + e);
    assert s == PredictionLabel + (p + "\n" + t2);
    LineAfterUnique(s, PredictionLabel, 0, p, t2);
  }

  lemma ConfidenceField(p: string, c: string, e: string)
    requires '\n' !in c && OnlyAt(Layout(p, c, e), ConfidenceLabel, ConfidenceAt(p))
    ensures LineAfter(Layout(p, c, e), ConfidenceLabel) == Some(c)
  {
    var s := Layout(p, c, e);
    var t3 := ExplanationLabel + e;
    assert s == (PredictionLabel + p + "\n" + ConfidenceLabel) + (c + "\n" + t3);
    LineAfterUnique(s, ConfidenceLabel, ConfidenceAt(p), c, t3);
  }

  lemma ExplanationField(p: string, c: string, e: string)
    requires OnlyAt(Layout(p, c, e), ExplanationLabel, ExplanationAt(p, c))
    ensures Segment(Layout(p, c, e), ExplanationLabel) == Some(e)
  {
    var s := Layout(p, c, e);
    assert s == (PredictionLabel + p + "\n" + (ConfidenceLabel + c + "\n") + ExplanationLabel) + e;
    SegmentOfUnique(s, ExplanationLabel, ExplanationAt(p, c));
  }

  /**
   A prediction laid out as "Prediction: p", "Confidence: c" and
   "Explanation: e" on their own lines, each label occurring only there,
   parses back into p, c and e.
   */
  lemma ParseLayout(host: string, p: string, c: string, e: string)
    requires '\n' !in p && '\n' !in c
    requires OnlyAt(Layout(p, c, e), PredictionLabel, 0)
    requires OnlyAt(Layout(p, c, e), ConfidenceLabel, ConfidenceAt(p))
    requires OnlyAt(Layout(p, c, e), ExplanationLabel, ExplanationAt(p, c))
    ensures ParsePrediction(host, Layout(p, c, e)) == Ok(Record(host, p, c, e))
  {
    PredictionField(p, c, e);
    ConfidenceField(p, c, e);
    ExplanationField(p, c, e);
    ParseFields(host, Layout(p, c, e), p, c, e);
  }

  /**
   What the model's call for one host gave: it raised (the client could
   not be built or the request failed), or it answered with a message whose
   content may be None.
   */
  datatype Answer = Raised | Content(text: Option<string>)

  /**
   Why nothing was saved: the host whose prediction lacks a mark, and the
   mark; or the host whose reply had no content, on which `split` raises.
   */
  datatype SaveError = MissingLabel(host: string, mark: string) | NoContent(host: string)

  /** One host's reply as a record, or why it cannot be one. */
  function ParseReply(host: string, reply: Option<string>): (r: Result<Record, SaveError>)
    ensures reply.None? ==> r == Err(NoContent(host))
    ensures reply.Some? ==> (r.Ok? <==> ParsePrediction(host, reply.value).Ok?)
    ensures reply.Some? && r.Ok? ==> ParsePrediction(host, reply.value) == Ok(r.value)
    ensures reply.Some? && r.Err? ==> r.error == MissingLabel(host, ParsePrediction(host, reply.value).error)
  {
    match reply
    case None => Err(NoContent(host))
    case Some(text) =>
      match ParsePrediction(host, text)
      case Ok(record) => Ok(record)
      case Err(mark) => Err(MissingLabel(host, mark))
  }

  /**
   `save_predictions`: one record per host in order; the comprehension
   raises on the first reply that has no content or lacks a mark, and
   nothing is saved.
   */
  function SavePredictions(predictions: seq<(string, Option<string>)>): (r: Result<seq<Record>, SaveError>)
    ensures r.Ok? ==> |r.value| == |predictions|
    ensures r.Ok? ==> forall k :: 0 <= k < |predictions| ==> r.value[k].host == predictions[k].0
    ensures r.Ok? ==> ParsesAll(predictions, r.value)
    ensures r.Ok? <==> forall k :: 0 <= k < |predictions| ==> ParsePair(predictions[k]).Ok?
    ensures r.Err? ==> Blames(predictions, r.error)
  {
    if |predictions| == 0 then Ok([])
    else
      match ParsePair(predictions[0])
      case Err(e) => Err(e)
      case Ok(record) =>
        match SavePredictions(predictions[1..])
        case Err(e) =>
          BlamesShift(predictions, e);
          Err(e)
        case Ok(rest) =>
          AllOkCons(ParsePair, predictions, record, rest);
          Ok([record] + rest)
  }

  /** `ParseReply` on a (host, reply) pair. */
  function ParsePair(p: (string, Option<string>)): Result<Record, SaveError> {
    ParseReply(p.0, p.1)
  }

  /** Record `k` is the parse of reply `k`, for every `k`. */
  ghost predicate ParsesAll(predictions: seq<(string, Option<string>)>, records: seq<Record>) {
    AllOk(ParsePair, predictions, records)
  }

  /** `f` maps each element of `xs` to `Ok` of the element of `ys` at the same position. */
  ghost predicate AllOk<A, B, E>(f: A -> Result<B, E>, xs: seq<A>, ys: seq<B>) {
    |ys| == |xs| && forall k :: 0 <= k < |xs| ==> f(xs[k]) == Ok(ys[k])
  }

  lemma AllOkCons<A, B, E>(f: A -> Result<B, E>, xs: seq<A>, y: B, ys: seq<B>)
    requires |xs| > 0 && f(xs[0]) == Ok(y) && AllOk(f, xs[1..], ys)
    ensures AllOk(f, xs, [y] + ys)
  {
    forall k | 0 < k < |xs| ensures f(xs[k]) == Ok(([y] + ys)[k]) {
      assert xs[k] == xs[1..][k - 1];
    }
  }

  /** Some reply fails to parse with the error `e`. */
  ghost predicate Blames(predictions: seq<(string, Option<string>)>, e: SaveError) {
    exists k :: 0 <= k < |predictions| && predictions[k].0 == e.host && ParsePair(predictions[k]) == Err(e)
  }

  lemma BlamesShift(predictions: seq<(string, Option<string>)>, e: SaveError)
    requires |predictions| > 0 && Blames(predictions[1..], e)
    ensures Blames(predictions, e)
  {
    var k :| 0 <= k < |predictions| - 1 && predictions[1..][k].0 == e.host && ParsePair(predictions[1..][k]) == Err(e);
    assert predictions[k + 1] == predictions[1..][k];
  }

  // ---------------------------------------------------------------------
  // The whole run
  // ---------------------------------------------------------------------

  datatype Outcome =
    | Usage
    | ConfigMissing
    | BadConfigLine(line: nat)
    | MissingColumns
    | SummariesUnprintable
    | SettingMissing(key: string)
    | PredictionFailed(host: string)
    | SaveFailed(error: SaveError)
    | WriteFailed
    | Saved(summaries: seq<Summary>, records: seq<Record>)

  /** The model's answer for a summary, asked with its host. */
  function Ask(predict: (string, Summary) -> Answer, s: Summary): Answer {
    predict(s.host, s)
  }

  /**
   The loop over the summaries: each host's reply, in order, or the
   position of the first host whose call raised, which ends the loop.
   */
  function Predictions(summaries: seq<Summary>, predict: (string, Summary) -> Answer)
    : (r: Result<seq<(string, Option<string>)>, nat>)
    ensures r.Ok? <==> forall k :: 0 <= k < |summaries| ==> !Ask(predict, summaries[k]).Raised?
    ensures r.Ok? ==> |r.value| == |summaries|
    ensures r.Ok? ==> forall k :: 0 <= k < |r.value| ==> r.value[k] == (summaries[k].host, Ask(predict, summaries[k]).text)
    ensures r.Err? ==> r.error < |summaries| && Ask(predict, summaries[r.error]).Raised?
    ensures r.Err? ==> forall k :: 0 <= k < r.error ==> !Ask(predict, summaries[k]).Raised?
  {
    if |summaries| == 0 then Ok([])
    else
      match Ask(predict, summaries[0])
      case Raised => Err(0)
      case Content(text) =>
        match Predictions(summaries[1..], predict)
        case Err(k) =>
          assert summaries[k + 1] == summaries[1..][k];
          assert forall j :: 0 < j < k + 1 ==> summaries[j] == summaries[1..][j - 1];
          Err(k + 1)
        case Ok(rest) =>
          assert forall j :: 0 < j < |summaries| ==> summaries[j] == summaries[1..][j - 1];
          Ok([(summaries[0].host, text)] + rest)
  }

  /**
   The end of `main` once the summaries are printed and the settings are
   present: ask the model for each host, then save.
   */
  function PredictAndSave(summaries: seq<Summary>, predict: (string, Summary) -> Answer, writable: bool)
    : (o: Outcome)
    ensures o.PredictionFailed? || o.SaveFailed? || o.WriteFailed? || o.Saved?
    ensures o.PredictionFailed? <==> Predictions(summaries, predict).Err?
    ensures o.PredictionFailed? ==> o.host == summaries[Predictions(summaries, predict).error].host
    ensures o.SaveFailed? <==> (Predictions(summaries, predict).Ok?
      && SavePredictions(Predictions(summaries, predict).value).Err?)
    ensures o.SaveFailed? ==> SavePredictions(Predictions(summaries, predict).value) == Err(o.error)
    ensures o.WriteFailed? || o.Saved? <==> (Predictions(summaries, predict).Ok?
      && SavePredictions(Predictions(summaries, predict).value).Ok?)
    ensures o.WriteFailed? ==> !writable
    ensures o.Saved? ==> (writable && o.summaries == summaries
      && SavePredictions(Predictions(summaries, predict).value) == Ok(o.records))
  {
    match Predictions(summaries, predict)
    case Err(k) => PredictionFailed(summaries[k].host)
    case Ok(predictions) =>
      match SavePredictions(predictions)
      case Err(e) => SaveFailed(e)
      case Ok(records) => if writable then Saved(summaries, records) else WriteFailed
  }

  /**
   The run gets as far as asking the model: the arguments, the settings
   file and the columns are in order, and, when there is a host, its
   summaries print and every model setting is present.
   */
  predicate AsksModel(args: seq<string>, config: Option<seq<string>>, columns: seq<string>, samples: seq<Sample>,
                      integerColumns: bool)
  {
    && |args| == 1 && config.Some? && LoadConfig(config.value).Ok? && HasRequiredColumns(columns)
    && (|samples| > 0 ==> !integerColumns && Missing(RequiredSettings, LoadConfig(config.value).value) == [])
  }

  /**
   `main`: `args` are the command-line arguments after the script name,
   `config` the lines of the settings file (None when it cannot be opened),
   `columns` and `samples` the data table, `slope` the trend fit,
   `predict(host, summary)` the model's answer for a host and `writable`
   whether `predictions.csv` can be written. The model is asked only when
   there is a host, so missing model settings matter only then; they are
   read from the settings for the first host, before its call is made.
   `integerColumns` says whether pandas read the CPU, memory or storage
   column as integers: the summaries then hold numpy integers (a column's
   `max()` and its last storage value), which `json.dumps` rejects with a
   TypeError before any prediction is asked for.
   */
  function Main(args: seq<string>, config: Option<seq<string>>, columns: seq<string>, samples: seq<Sample>,
                integerColumns: bool, slope: seq<real> -> real, predict: (string, Summary) -> Answer,
                writable: bool): (o: Outcome)
    ensures o.Usage? <==> |args| != 1
    ensures o.ConfigMissing? <==> |args| == 1 && config.None?
    ensures o.BadConfigLine? <==> (|args| == 1 && config.Some? && LoadConfig(config.value).Err?)
    ensures o.BadConfigLine? ==> LoadConfig(config.value) == Err(o.line)
    ensures o.MissingColumns? <==> (|args| == 1 && config.Some? && LoadConfig(config.value).Ok?
      && !HasRequiredColumns(columns))
    ensures o.SummariesUnprintable? <==> (|args| == 1 && config.Some? && LoadConfig(config.value).Ok?
      && HasRequiredColumns(columns) && |samples| > 0 && integerColumns)
    ensures o.SettingMissing? <==> (|args| == 1 && config.Some? && LoadConfig(config.value).Ok?
      && HasRequiredColumns(columns) && |samples| > 0 && !integerColumns
      && Missing(RequiredSettings, LoadConfig(config.value).value) != [])
    ensures o.SettingMissing? ==> o.key == Missing(RequiredSettings, LoadConfig(config.value).value)[0]
    ensures AsksModel(args, config, columns, samples, integerColumns) ==>
      o == PredictAndSave(Summaries(samples, slope), predict, writable)
    ensures o.PredictionFailed? || o.SaveFailed? || o.WriteFailed? || o.Saved? ==>
      AsksModel(args, config, columns, samples, integerColumns)
  {
    if |args| != 1 then Usage
    else if config.None? then ConfigMissing
    else Loaded(LoadConfig(config.value), columns, |samples| > 0, integerColumns, Summaries(samples, slope), predict, writable)
  }

  /**
   `main` after the settings file was read: `loaded` is what loading it
   gave, `hasHost` whether the data has a row and `summaries` the
   per-host summaries that are printed.
   */
  function Loaded(loaded: Result<map<string, string>, nat>, columns: seq<string>, hasHost: bool,
                  integerColumns: bool, summaries: seq<Summary>, predict: (string, Summary) -> Answer,
                  writable: bool): (o: Outcome)
    ensures !o.Usage? && !o.ConfigMissing?
    ensures o.BadConfigLine? <==> loaded.Err?
    ensures o.BadConfigLine? ==> loaded == Err(o.line)
    ensures o.MissingColumns? <==> loaded.Ok? && !HasRequiredColumns(columns)
    ensures o.SummariesUnprintable? <==> (loaded.Ok? && HasRequiredColumns(columns) && hasHost && integerColumns)
    ensures o.SettingMissing? <==> (loaded.Ok? && HasRequiredColumns(columns) && hasHost && !integerColumns
      && Missing(RequiredSettings, loaded.value) != [])
    ensures o.SettingMissing? ==> o.key == Missing(RequiredSettings, loaded.value)[0]
    ensures (loaded.Ok? && HasRequiredColumns(columns)
      && (hasHost ==> !integerColumns && Missing(RequiredSettings, loaded.value) == [])) ==>
      o == PredictAndSave(summaries, predict, writable)
    ensures o.PredictionFailed? || o.SaveFailed? || o.WriteFailed? || o.Saved? ==>
      (loaded.Ok? && HasRequiredColumns(columns)
      && (hasHost ==> !integerColumns && Missing(RequiredSettings, loaded.value) == []))
  {
    match loaded
    case Err(i) => BadConfigLine(i)
    case Ok(cfg) =>
      if !HasRequiredColumns(columns) then MissingColumns
      else
        var missing := Missing(RequiredSettings, cfg);
        if hasHost && integerColumns then SummariesUnprintable
        else if hasHost && |missing| > 0 then SettingMissing(missing[0])
        else PredictAndSave(summaries, predict, writable)
  }

  /**
   A run that saves its predictions saves one record for each host, in the
   order the hosts first appear, parsed from the content of the model's
   answer for that host.
   */
  lemma SavedRecords(args: seq<string>, config: Option<seq<string>>, columns: seq<string>, samples: seq<Sample>,
                     integerColumns: bool, slope: seq<real> -> real, predict: (string, Summary) -> Answer,
                     writable: bool)
    requires Main(args, config, columns, samples, integerColumns, slope, predict, writable).Saved?
    ensures var o := Main(args, config, columns, samples, integerColumns, slope, predict, writable);
      |o.records| == |Hosts(samples)| && forall k :: 0 <= k < |o.records| ==> (o.records[k].host == Hosts(samples)[k]
        && predict(Hosts(samples)[k], o.summaries[k]).Content?
        && predict(Hosts(samples)[k], o.summaries[k]).text.Some?
        && ParsePrediction(Hosts(samples)[k], predict(Hosts(samples)[k], o.summaries[k]).text.value) == Ok(o.records[k]))
  {
    var o := Main(args, config, columns, samples, integerColumns, slope, predict, writable);
    var predictions := Predictions(o.summaries, predict).value;
    forall k | 0 <= k < |o.records|
      ensures o.records[k].host == Hosts(samples)[k]
      ensures predict(Hosts(samples)[k], o.summaries[k]).Content?
      ensures predict(Hosts(samples)[k], o.summaries[k]).text.Some?
      ensures ParsePrediction(Hosts(samples)[k], predict(Hosts(samples)[k], o.summaries[k]).text.value) == Ok(o.records[k])
    {
      assert predictions[k] == (o.summaries[k].host, Ask(predict, o.summaries[k]).text);
      assert ParsePair(predictions[k]) == Ok(o.records[k]);
    }
  }
}
