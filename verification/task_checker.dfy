/**
 The Cosmos-triggered task processor: each new, unprocessed task document is
 sent to the DeepSeek chat API (retried with exponential backoff while the
 service answers 503), a ```json fenced object is taken from the reply or a
 default record is built instead, and the record is stamped with the
 document's id, creation time and `processed` flag and upserted.

 The HTTP service is a function from (document, attempt) to the outcome of
 that request; `json.loads` is a function from text to its decoding;
 `date.today()` is a parameter; sleeping is recorded as a list of delays.
 */
module TaskChecker {
  import opened Wrappers
  import opened Text
  import opened Calendar

  // ---------------------------------------------------------------------
  // The DeepSeek call with retries
  // ---------------------------------------------------------------------

  const MaxRetries: nat := 3
  const InitialDelay: nat := 5

  /** What `response.json()["choices"][0]["message"]["content"]` finds. */
  datatype Reply = Content(text: string) | Malformed

  /** A response body: JSON (with or without the expected shape) or not JSON at all. */
  datatype Body = Json(reply: Reply) | NotJson

  /** One `requests.post`: a response, or a connection-level failure (timeout, refused, ...). */
  datatype Attempt = Response(status: int, body: Body) | TransportFailure

  /** The three exceptions `call_deepseek_api` raises. */
  datatype ApiError = MaxRetriesReached | ApiStatus(status: int) | RequestError

  /** The result of the call, how many requests it made and the sleeps it took, in order. */
  datatype ApiCall = ApiCall(result: Result<Reply, ApiError>, attempts: nat, sleeps: seq<nat>)

  /** `raise_for_status()` raises for client and server error statuses. */
  predicate IsHttpError(status: int) {
    400 <= status < 600
  }

  /** The one outcome that is retried. */
  predicate Unavailable(a: Attempt) {
    a.Response? && a.status == 503
  }

  /**
   The result of an attempt that is not retried. A body that is not JSON makes
   `response.json()` raise a `RequestException` subclass, so it is reported
   like a transport failure.
   */
  function Settle(a: Attempt): (r: Result<Reply, ApiError>)
    requires !Unavailable(a)
    ensures r != Err(MaxRetriesReached)
    ensures r.Ok? <==> a.Response? && !IsHttpError(a.status) && a.body.Json?
    ensures r.Ok? ==> r.value == a.body.reply
    ensures (r.Err? && r.error.ApiStatus?) <==> (a.Response? && IsHttpError(a.status))
    ensures r.Err? && r.error.ApiStatus? ==> r.error.status == a.status && a.status != 503
  {
    match a
    case TransportFailure => Err(RequestError)
    case Response(status, body) =>
      if IsHttpError(status) then Err(ApiStatus(status))
      else if body.NotJson? then Err(RequestError)
      else Ok(body.reply)
  }

  function Pow2(n: nat): (p: nat)
    ensures p >= 1
  {
    if n == 0 then 1 else 2 * Pow2(n - 1)
  }

  /**
   The retry loop from attempt `a` on: a 503 sleeps `delay * 2^a` and goes
   on, any other outcome ends the call, and after the last attempt the call
   fails with "Max retries reached".
   */
  function CallFrom(attempt: nat -> Attempt, maxRetries: nat, delay: nat, a: nat): (c: ApiCall)
    requires a <= maxRetries
    ensures a + |c.sleeps| <= maxRetries
    ensures forall i :: a <= i < a + |c.sleeps| ==> Unavailable(attempt(i))
    ensures forall i :: 0 <= i < |c.sleeps| ==> c.sleeps[i] == delay * Pow2(a + i)
    ensures c.result == Err(MaxRetriesReached) <==> a + |c.sleeps| == maxRetries
    ensures a + |c.sleeps| == maxRetries ==> c.attempts == |c.sleeps|
    ensures a + |c.sleeps| < maxRetries ==>
      && c.attempts == |c.sleeps| + 1
      && !Unavailable(attempt(a + |c.sleeps|))
      && c.result == Settle(attempt(a + |c.sleeps|))
    decreases maxRetries - a
  {
    if a == maxRetries then ApiCall(Err(MaxRetriesReached), 0, [])
    else if Unavailable(attempt(a)) then
      var rest := CallFrom(attempt, maxRetries, delay, a + 1);
      ApiCall(rest.result, rest.attempts + 1, [delay * Pow2(a)] + rest.sleeps)
    else ApiCall(Settle(attempt(a)), 1, [])
  }

  /** `call_deepseek_api(prompt)` with its default retry settings. */
  function CallDeepseek(attempt: nat -> Attempt): (c: ApiCall)
    ensures |c.sleeps| <= MaxRetries
    ensures c.result == Err(MaxRetriesReached) <==> |c.sleeps| == MaxRetries
  {
    CallFrom(attempt, MaxRetries, InitialDelay, 0)
  }

  function TotalSleep(xs: seq<nat>): nat {
    if |xs| == 0 then 0 else TotalSleep(xs[..|xs| - 1]) + xs[|xs| - 1]
  }

  /** Sleeping `delay * 2^i` after each of `n` attempts sleeps `delay * (2^n - 1)` in all. */
  lemma {:induction false} BackoffTotal(xs: seq<nat>, delay: nat)
    requires forall i :: 0 <= i < |xs| ==> xs[i] == delay * Pow2(i)
    ensures TotalSleep(xs) == delay * (Pow2(|xs|) - 1)
  {
    if |xs| > 0 {
      var n := |xs| - 1;
      BackoffTotal(xs[..n], delay);
      var p := Pow2(n);
      assert TotalSleep(xs) == TotalSleep(xs[..n]) + xs[n];
      Doubling(delay, p);
    }
  }

  lemma Doubling(d: nat, p: nat)
    requires p >= 1
    ensures d * (p - 1) + d * p == d * (2 * p - 1)
  {
  }

  /**
   When every attempt answers 503, all `maxRetries` attempts are made, each
   followed by its sleep, the sleeps add up to `delay * (2^maxRetries - 1)`,
   and the call fails with "Max retries reached".
   */
  lemma AllUnavailableExhausts(attempt: nat -> Attempt, maxRetries: nat, delay: nat)
    requires forall i :: 0 <= i < maxRetries ==> Unavailable(attempt(i))
    ensures var c := CallFrom(attempt, maxRetries, delay, 0);
      && c.result == Err(MaxRetriesReached)
      && c.attempts == maxRetries
      && |c.sleeps| == maxRetries
      && TotalSleep(c.sleeps) == delay * (Pow2(maxRetries) - 1)
  {
    var c := CallFrom(attempt, maxRetries, delay, 0);
    BackoffTotal(c.sleeps, delay);
  }

  /**
   When attempts before `k` answer 503 and attempt `k` does not, the call
   makes exactly `k + 1` requests, sleeps `k` times, and its result is that
   of attempt `k`: a success returns its reply, any other status or a
   transport failure fails at once.
   */
  lemma FirstDecisiveAttempt(attempt: nat -> Attempt, maxRetries: nat, delay: nat, k: nat)
    requires k < maxRetries
    requires forall i :: 0 <= i < k ==> Unavailable(attempt(i))
    requires !Unavailable(attempt(k))
    ensures var c := CallFrom(attempt, maxRetries, delay, 0);
      && c.attempts == k + 1
      && |c.sleeps| == k
      && c.result == Settle(attempt(k))
  {
    var c := CallFrom(attempt, maxRetries, delay, 0);
  }

  // ---------------------------------------------------------------------
  // Records, the fence and the fallback
  // ---------------------------------------------------------------------

  /** A JSON value as far as this function looks at it. */
  datatype Value = Str(s: string) | Bool(b: bool) | Null | Other

  type Record = map<string, Value>

  const JsonOpen: string := "```json\n"
  const JsonClose: string := "\n```"
  const TaskNameLimit: nat := 50
  const DueTime: string := "T10:00:00Z"

  /**
   The text between the first "```json\n" and the last "\n```" of the model's
   reply, when both occur and the closer starts strictly after the opener ends.
   */
  function JsonFence(text: string): (r: Option<string>)
    ensures r.Some? ==> Contains(text, JsonOpen)
  {
    var start := PyFind(text, JsonOpen) + |JsonOpen|;
    var end := PyRFind(text, JsonClose);
    if start > 7 && end > start then Some(text[start..end]) else None
  }

  /**
   The fence in terms of occurrences: with `o` the first opener and `c` the
   last closer, the body is `text[o + 8..c]` when `c > o + 8` and there is
   none otherwise.
   */
  lemma JsonFenceBetween(text: string, o: nat, c: nat)
    requires OccursAt(text, JsonOpen, o) && forall j :: 0 <= j < o ==> !OccursAt(text, JsonOpen, j)
    requires OccursAt(text, JsonClose, c) && forall j :: c < j ==> !OccursAt(text, JsonClose, j)
    ensures JsonFence(text) == if c > o + |JsonOpen| then Some(text[o + |JsonOpen|..c]) else None
  {
    assert FindFrom(text, JsonOpen, 0) == Some(o);
    var l := FindLast(text, JsonClose, |text|);
    assert l.Some?;
  }

  /** Without an opener there is no fence. */
  lemma JsonFenceNeedsOpener(text: string)
    requires !Contains(text, JsonOpen)
    ensures JsonFence(text) == None
  {
  }

  /** A non-empty body wrapped in the fence comes back out unchanged. */
  lemma JsonFenceRoundTrip(body: string)
    requires body != ""
    ensures JsonFence(JsonOpen + body + JsonClose) == Some(body)
  {
    var text := JsonOpen + body + JsonClose;
    var c := |JsonOpen| + |body|;
    assert OccursAt(text, JsonOpen, 0);
    assert text[c..] == JsonClose;
    assert OccursAt(text, JsonClose, c);
    JsonFenceBetween(text, 0, c);
    assert text[|JsonOpen|..c] == body;
  }

  /** An empty body is not taken: "```json\n\n```" uses the fallback. */
  lemma JsonFenceEmptyBody()
    ensures JsonFence(JsonOpen + JsonClose) == None
  {
    var text := JsonOpen + JsonClose;
    assert OccursAt(text, JsonOpen, 0);
    assert OccursAt(text, JsonClose, |JsonOpen|);
    JsonFenceBetween(text, 0, |JsonOpen|);
  }

  function Min(a: nat, b: nat): nat {
    if a <= b then a else b
  }

  /** `(date.today() + timedelta(days=1)).isoformat() + "T10:00:00Z"`; None on OverflowError. */
  function DueDate(today: Date): (r: Option<string>)
    requires Valid(today)
    ensures r.None? <==> today == Date(MaxYear, 12, 31)
    ensures r.Some? ==> |r.value| == 20 && EndsWith(r.value, DueTime)
  {
    match NextDay(today)
    case None => None
    case Some(t) =>
      var s := IsoFormat(t) + DueTime;
      assert s[|s| - |DueTime|..] == DueTime;
      Some(s)
  }

  /** The due date reads back as tomorrow's date. */
  lemma DueDateIsTomorrow(today: Date)
    requires Valid(today) && today != Date(MaxYear, 12, 31)
    ensures var d := DueDate(today).value;
      && (forall i :: 0 <= i < 10 && i != 4 && i != 7 ==> IsDigit(d[i]))
      && ParseIso(d[..10]) == NextDay(today).value
  {
    var t := NextDay(today).value;
    var d := DueDate(today).value;
    assert d[..10] == IsoFormat(t);
    IsoRoundTrip(t);
  }

  /** `parse_task_fallback(task_input)`; None when it raises. */
  function Fallback(input: string, today: Date): (r: Option<Record>)
    requires Valid(today)
    ensures r.None? <==> today == Date(MaxYear, 12, 31)
    ensures r.Some? ==> r.value.Keys == {"task_name", "due_date", "priority", "processed"}
    ensures r.Some? ==> (r.value["task_name"].Str?
      && StartsWith(input, r.value["task_name"].s)
      && |r.value["task_name"].s| == Min(|input|, TaskNameLimit))
    ensures r.Some? ==> r.value["due_date"] == Str(DueDate(today).value)
    ensures r.Some? ==> r.value["priority"] == Str("Medium") && r.value["processed"] == Bool(true)
  {
    match DueDate(today)
    case None => None
    case Some(due) =>
      var name := input[..Min(|input|, TaskNameLimit)];
      Some(map["task_name" := Str(name), "due_date" := Str(due),
               "priority" := Str("Medium"), "processed" := Bool(true)])
  }

  /** What `json.loads` makes of the fenced text. */
  datatype Decoded = Object(fields: Record) | NotObject | Undecodable

  /**
   The record built for one document, or None when an exception escapes:
   a failed call on the first processed document (the handler reads
   `parse_response` before it is ever assigned), a fallback that fails, or
   decoded JSON that is not an object (assigning its "id" raises).
   `bound` says whether an earlier document's call returned.
   */
  function ParseTask(call: Result<Reply, ApiError>, bound: bool, decode: string -> Decoded,
                     input: string, today: Date): (o: Option<Record>)
    requires Valid(today)
    ensures call.Err? ==> (o.Some? <==> bound && today != Date(MaxYear, 12, 31))
    ensures call.Err? && o.Some? ==> o == Fallback(input, today)
    ensures o.Some? ==> (o == Fallback(input, today)
      || (call.Ok? && call.value.Content? && JsonFence(call.value.text).Some?
          && decode(JsonFence(call.value.text).value).Object?
          && o == Some(decode(JsonFence(call.value.text).value).fields)))
  {
    match call
    case Err(_) => if bound then Fallback(input, today) else None
    case Ok(Malformed) => Fallback(input, today)
    case Ok(Content(text)) =>
      match JsonFence(text)
      case None => Fallback(input, today)
      case Some(js) =>
        match decode(js)
        case Object(fields) => Some(fields)
        case NotObject => None
        case Undecodable => Fallback(input, today)
  }

  /** A reply whose fenced text decodes to an object yields that object. */
  lemma ModelRecordUsed(text: string, bound: bool, decode: string -> Decoded, input: string, today: Date)
    requires Valid(today)
    requires JsonFence(text).Some? && decode(JsonFence(text).value).Object?
    ensures ParseTask(Ok(Content(text)), bound, decode, input, today) == Some(decode(JsonFence(text).value).fields)
  {
  }

  // ---------------------------------------------------------------------
  // The document loop
  // ---------------------------------------------------------------------

  /** A change-feed document, as far as the function reads it. */
  datatype Doc = Doc(id: Option<string>, taskName: Option<string>, processed: bool, createdAt: Option<string>)

  /** A document with a non-empty `task_name` that is not yet processed. */
  predicate Eligible(d: Doc) {
    d.taskName.Some? && d.taskName.value != "" && !d.processed
  }

  /** The documents the loop handles, in change-feed order. */
  function EligibleDocs(docs: seq<Doc>): (r: seq<Doc>)
    ensures |r| <= |docs|
    ensures forall k :: 0 <= k < |r| ==> Eligible(r[k])
  {
    if |docs| == 0 then []
    else if Eligible(docs[0]) then [docs[0]] + EligibleDocs(docs[1..])
    else EligibleDocs(docs[1..])
  }

  /**
   The change-feed indexes of the eligible documents, `docs[0]` being at
   index `base`.
   */
  function Positions(docs: seq<Doc>, base: nat): (r: seq<nat>)
    ensures |r| == |EligibleDocs(docs)|
    ensures forall k :: 0 <= k < |r| ==> base <= r[k] < base + |docs|
    decreases |docs|
  {
    if |docs| == 0 then []
    else if Eligible(docs[0]) then [base] + Positions(docs[1..], base + 1)
    else Positions(docs[1..], base + 1)
  }

  /** The `k`-th handled document is the one at the `k`-th position. */
  lemma {:induction false} PositionsPick(docs: seq<Doc>, base: nat, k: nat)
    requires k < |Positions(docs, base)|
    ensures EligibleDocs(docs)[k] == docs[Positions(docs, base)[k] - base]
    decreases |docs|
  {
    var tail := docs[1..];
    if !Eligible(docs[0]) {
      PositionsPick(tail, base + 1, k);
      assert docs[Positions(docs, base)[k] - base] == tail[Positions(tail, base + 1)[k] - (base + 1)];
    } else if k > 0 {
      PositionsPick(tail, base + 1, k - 1);
      assert Positions(docs, base)[k] == Positions(tail, base + 1)[k - 1];
      assert docs[Positions(docs, base)[k] - base] == tail[Positions(tail, base + 1)[k - 1] - (base + 1)];
    }
  }

  /** The positions increase: documents are handled in change-feed order. */
  lemma {:induction false} PositionsIncrease(docs: seq<Doc>, base: nat)
    ensures forall k, l :: 0 <= k < l < |Positions(docs, base)| ==> Positions(docs, base)[k] < Positions(docs, base)[l]
    decreases |docs|
  {
    if |docs| > 0 {
      PositionsIncrease(docs[1..], base + 1);
    }
  }

  /** Every eligible document is handled: its index is among the positions. */
  lemma {:induction false} PositionsCover(docs: seq<Doc>, base: nat, i: nat) returns (k: nat)
    requires i < |docs| && Eligible(docs[i])
    ensures k < |Positions(docs, base)| && Positions(docs, base)[k] == base + i
    decreases |docs|
  {
    var rest := Positions(docs[1..], base + 1);
    if i == 0 {
      k := 0;
    } else {
      assert docs[1..][i - 1] == docs[i];
      var k' := PositionsCover(docs[1..], base + 1, i - 1);
      k := if Eligible(docs[0]) then k' + 1 else k';
    }
  }

  function CreatedAt(d: Doc): Value {
    match d.createdAt
    case Some(t) => Str(t)
    case None => Null
  }

  /** Overwrites "id", "created_at" and "processed" of `data` from the document. */
  function Stamp(data: Record, d: Doc): (r: Record)
    requires d.id.Some?
    ensures r.Keys == data.Keys + {"id", "created_at", "processed"}
    ensures forall k :: k in data && k !in {"id", "created_at", "processed"} ==> r[k] == data[k]
    ensures Stamped(r, d)
  {
    data["id" := Str(d.id.value)]["created_at" := CreatedAt(d)]["processed" := Bool(true)]
  }

  /** `r` carries the document's id and creation time and is marked processed. */
  predicate Stamped(r: Record, d: Doc) {
    && d.id.Some?
    && "id" in r && r["id"] == Str(d.id.value)
    && "created_at" in r && r["created_at"] == CreatedAt(d)
    && "processed" in r && r["processed"] == Bool(true)
  }

  /**
   How `main` ends: nothing to do, every document handled, or an exception
   re-raised after the listed records were upserted.
   */
  datatype Outcome = NoDocuments | Completed(stored: seq<Record>) | Raised(stored: seq<Record>)

  /** What the model call and parsing give for one document, and whether the call returned. */
  datatype Parsed = Parsed(record: Option<Record>, returned: bool)

  /** The call and parsing for eligible document `d`, the `i`-th of the change feed. */
  function ParseDoc(d: Doc, i: nat, bound: bool, api: nat -> nat -> Attempt,
                    decode: string -> Decoded, today: Date): (p: Parsed)
    requires Valid(today) && Eligible(d)
    ensures p.returned <==> CallDeepseek(api(i)).result.Ok?
    ensures !p.returned && !bound ==> p.record.None?
  {
    var call := CallDeepseek(api(i));
    Parsed(ParseTask(call.result, bound, decode, d.taskName.value, today), call.result.Ok?)
  }

  /** What handling one eligible document leads to. */
  datatype Step = Fail(stored: seq<Record>) | Upsert(rec: Record)

  /**
   Stamping and storing the record of an eligible document. The record is
   upserted before `task_data['task_name']` is read for the log line, so a
   record without "task_name" is stored and then the loop fails.
   */
  function Handle(d: Doc, record: Option<Record>): (s: Step)
    ensures s.Fail? ==> |s.stored| <= 1 && forall k :: 0 <= k < |s.stored| ==> Stamped(s.stored[k], d)
    ensures s.Upsert? ==> Stamped(s.rec, d) && "task_name" in s.rec
    ensures s.Upsert? <==> record.Some? && d.id.Some? && "task_name" in record.value
  {
    match record
    case None => Fail([])
    case Some(data) =>
      if d.id.None? then Fail([])
      else
        var rec := Stamp(data, d);
        if "task_name" !in rec then Fail([rec]) else Upsert(rec)
  }

  /**
   The loop over `docs`; `base` is the index of `docs[0]` in the change
   feed, `bound` whether an earlier call returned, and `parse(i, bound)`
   what the call and parsing give for document `i`.
   */
  function Run(docs: seq<Doc>, base: nat, bound: bool, parse: (nat, bool) -> Parsed): (o: Outcome)
    ensures !o.NoDocuments?
    ensures |o.stored| <= |EligibleDocs(docs)|
    ensures forall k :: 0 <= k < |o.stored| ==> Stamped(o.stored[k], EligibleDocs(docs)[k])
    ensures o.Completed? ==> |o.stored| == |EligibleDocs(docs)|
    ensures o.Completed? ==> forall k :: 0 <= k < |o.stored| ==> "task_name" in o.stored[k]
    decreases |docs|
  {
    if |docs| == 0 then Completed([])
    else if !Eligible(docs[0]) then Run(docs[1..], base + 1, bound, parse)
    else
      var p := parse(base, bound);
      match Handle(docs[0], p.record)
      case Fail(stored) => Raised(stored)
      case Upsert(rec) =>
        var tail := Run(docs[1..], base + 1, bound || p.returned, parse);
        var stored := [rec] + tail.stored;
        assert EligibleDocs(docs) == [docs[0]] + EligibleDocs(docs[1..]);
        StampedCons(rec, docs[0], tail.stored, EligibleDocs(docs[1..]));
        assert forall k :: 1 <= k < |stored| ==> stored[k] == tail.stored[k - 1];
        if tail.Completed? then Completed(stored) else Raised(stored)
  }

  /**
   Each of `stored` is the parsed record for the document at the same place
   in `handled`, whose change-feed index is at that place in `positions`,
   with the document's fields stamped over it.
   */
  predicate StampedParses(stored: seq<Record>, handled: seq<Doc>, positions: seq<nat>, parse: (nat, bool) -> Parsed) {
    && |stored| <= |handled| && |stored| <= |positions|
    && forall k :: 0 <= k < |stored| ==>
      && parse(positions[k], true).record.Some?
      && handled[k].id.Some?
      && stored[k] == Stamp(parse(positions[k], true).record.value, handled[k])
  }

  /**
   When what parsing gives does not depend on whether an earlier call
   returned, the `k`-th stored record is the `k`-th handled document's
   parsed record with that document's fields stamped over it.
   */
  lemma {:induction false} RunRecords(docs: seq<Doc>, base: nat, bound: bool, parse: (nat, bool) -> Parsed)
    requires forall i: nat, b: bool :: parse(i, b) == parse(i, true)
    ensures StampedParses(Run(docs, base, bound, parse).stored, EligibleDocs(docs), Positions(docs, base), parse)
    decreases |docs|
  {
    if |docs| > 0 {
      var tail := docs[1..];
      if !Eligible(docs[0]) {
        RunRecords(tail, base + 1, bound, parse);
        assert Run(docs, base, bound, parse) == Run(tail, base + 1, bound, parse);
        assert EligibleDocs(docs) == EligibleDocs(tail);
        assert Positions(docs, base) == Positions(tail, base + 1);
      } else {
        var p := parse(base, bound);
        assert p == parse(base, true);
        var o := Run(docs, base, bound, parse);
        match Handle(docs[0], p.record)
        case Fail(stored) =>
          assert o.stored == stored;
        case Upsert(rec) =>
          var next := bound || p.returned;
          RunRecords(tail, base + 1, next, parse);
          var t := Run(tail, base + 1, next, parse);
          assert o.stored == [rec] + t.stored;
          ConsStampedParses(rec, t.stored, docs[0], EligibleDocs(tail), base, Positions(tail, base + 1), parse);
          assert EligibleDocs(docs) == [docs[0]] + EligibleDocs(tail);
          assert Positions(docs, base) == [base] + Positions(tail, base + 1);
      }
    }
  }

  lemma ConsStampedParses(rec: Record, stored: seq<Record>, d: Doc, handled: seq<Doc>,
                          pos: nat, positions: seq<nat>, parse: (nat, bool) -> Parsed)
    requires StampedParses(stored, handled, positions, parse)
    requires parse(pos, true).record.Some? && d.id.Some?
    requires rec == Stamp(parse(pos, true).record.value, d)
    ensures StampedParses([rec] + stored, [d] + handled, [pos] + positions, parse)
  {
    var s, h, ps := [rec] + stored, [d] + handled, [pos] + positions;
    forall k | 0 <= k < |s|
      ensures parse(ps[k], true).record.Some? && h[k].id.Some?
      ensures s[k] == Stamp(parse(ps[k], true).record.value, h[k])
    {
      if k > 0 {
        assert s[k] == stored[k - 1] && h[k] == handled[k - 1] && ps[k] == positions[k - 1];
      }
    }

  }

  /** Records stamped with their documents stay so with one more in front. */
  lemma StampedCons(rec: Record, d: Doc, stored: seq<Record>, docs: seq<Doc>)
    requires Stamped(rec, d) && |stored| <= |docs|
    requires forall k :: 0 <= k < |stored| ==> Stamped(stored[k], docs[k])
    ensures forall k :: 0 <= k < |stored| + 1 ==> Stamped(([rec] + stored)[k], ([d] + docs)[k])
  {
    forall k | 0 < k < |stored| + 1 ensures Stamped(([rec] + stored)[k], ([d] + docs)[k]) {
      assert ([rec] + stored)[k] == stored[k - 1] && ([d] + docs)[k] == docs[k - 1];
    }
  }

  /** The model call and parsing for each document of the feed. */
  function Parser(docs: seq<Doc>, api: nat -> nat -> Attempt, decode: string -> Decoded,
                  today: Date): (nat, bool) -> Parsed
    requires Valid(today)
  {
    (i: nat, bound: bool) =>
      if i < |docs| && Eligible(docs[i]) then ParseDoc(docs[i], i, bound, api, decode, today)
      else Parsed(None, false)
  }

  /** `main(req)` for a batch of documents. */
  function ProcessTasks(docs: seq<Doc>, api: nat -> nat -> Attempt, decode: string -> Decoded,
                        today: Date): (o: Outcome)
    requires Valid(today)
    ensures o.NoDocuments? <==> |docs| == 0
    ensures o.Completed? ==> |o.stored| == |EligibleDocs(docs)|
    ensures !o.NoDocuments? ==> |o.stored| <= |EligibleDocs(docs)|
    ensures !o.NoDocuments? ==> forall k :: 0 <= k < |o.stored| ==> Stamped(o.stored[k], EligibleDocs(docs)[k])
  {
    if |docs| == 0 then NoDocuments else Run(docs, 0, false, Parser(docs, api, decode, today))
  }

  /**
   When the call for every eligible document returns, each stored record is
   the record parsed from that document's reply (or its fallback), with the
   document's id, creation time and `processed` flag stamped over it.
   */
  lemma StoredRecords(docs: seq<Doc>, api: nat -> nat -> Attempt, decode: string -> Decoded, today: Date)
    requires Valid(today)
    requires forall i :: 0 <= i < |docs| && Eligible(docs[i]) ==> CallDeepseek(api(i)).result.Ok?
    ensures !ProcessTasks(docs, api, decode, today).NoDocuments? ==>
      forall k :: 0 <= k < |ProcessTasks(docs, api, decode, today).stored| ==>
        && EligibleDocs(docs)[k].id.Some?
        && ParseTask(CallDeepseek(api(Positions(docs, 0)[k])).result, true, decode,
                     EligibleDocs(docs)[k].taskName.value, today).Some?
        && ProcessTasks(docs, api, decode, today).stored[k] ==
             Stamp(ParseTask(CallDeepseek(api(Positions(docs, 0)[k])).result, true, decode,
                             EligibleDocs(docs)[k].taskName.value, today).value,
                   EligibleDocs(docs)[k])
  {
    if |docs| > 0 {
      var parse := Parser(docs, api, decode, today);
      forall i: nat, b: bool ensures parse(i, b) == parse(i, true) {
      }
      RunRecords(docs, 0, false, parse);
      var o := Run(docs, 0, false, parse);
      assert o == ProcessTasks(docs, api, decode, today);
      var handled, positions := EligibleDocs(docs), Positions(docs, 0);
      forall k | 0 <= k < |o.stored|
        ensures parse(positions[k], true).record ==
          ParseTask(CallDeepseek(api(positions[k])).result, true, decode, handled[k].taskName.value, today)
      {
        PositionsPick(docs, 0, k);
      }
    }
  }

  /** Documents that are not eligible are passed over without a request. */
  lemma {:induction false} SkipIneligible(docs: seq<Doc>, base: nat, bound: bool,
                                          parse: (nat, bool) -> Parsed, j: nat)
    requires j <= |docs|
    requires forall i :: 0 <= i < j ==> !Eligible(docs[i])
    ensures Run(docs, base, bound, parse) == Run(docs[j..], base + j, bound, parse)
  {
    if j > 0 {
      assert docs[1..][j - 1..] == docs[j..];
      SkipIneligible(docs[1..], base + 1, bound, parse, j - 1);
    }
  }

  /**
   When the call for the first eligible document fails, the exception
   escapes `main` before anything is upserted, instead of the fallback
   record being used.
   */
  lemma FirstCallFailureEscapes(docs: seq<Doc>, api: nat -> nat -> Attempt, decode: string -> Decoded,
                                today: Date, j: nat)
    requires Valid(today) && j < |docs|
    requires forall i :: 0 <= i < j ==> !Eligible(docs[i])
    requires Eligible(docs[j]) && CallDeepseek(api(j)).result.Err?
    ensures ProcessTasks(docs, api, decode, today) == Raised([])
  {
    var parse := Parser(docs, api, decode, today);
    SkipIneligible(docs, 0, false, parse, j);
    var rest := docs[j..];
    assert rest[0] == docs[j];
    var p := ParseDoc(docs[j], j, false, api, decode, today);
    assert parse(j, false) == p && p.record.None?;
    assert Handle(rest[0], p.record) == Fail([]);
  }

  /** Once an earlier call has returned, a failed call falls back to the default record. */
  lemma LaterCallFailureFallsBack(call: Result<Reply, ApiError>, decode: string -> Decoded,
                                  input: string, today: Date)
    requires Valid(today) && today != Date(MaxYear, 12, 31) && call.Err?
    ensures ParseTask(call, true, decode, input, today) == Fallback(input, today)
    ensures ParseTask(call, false, decode, input, today) == None
  {
  }
}
