/**
 * The retry invoker: up to `maxRetries` calls to the generator, each one a
 * stream of events folded into the captured reply, with capped exponential
 * backoff between failed attempts and the last error passed on when every
 * attempt fails. The generator is an injected sequence of per-attempt
 * outcomes and the waits are returned instead of slept.
 */
module RetryInvoker {
  import opened Wrappers

  // ----- the event fold -----

  /** One element of an assistant message's content array: its `type` and its `text` (`""` when falsy). */
  datatype Item = Item(kind: string, text: string)

  /** `message.message.content`: an array of items, a string, or anything else (including absent). */
  datatype Content = Items(items: seq<Item>) | Plain(text: string) | Unusable

  /** A streamed message: a `result` message with its payload, an `assistant` message, or any other type. */
  datatype Event = ResultEvent(result: string) | AssistantEvent(content: Content) | OtherEvent

  /** The inner loop over a content array: a `text` item with truthy text fills an empty slot. */
  function ItemsFold(acc: string, items: seq<Item>): string
    decreases |items|
  {
    if items == [] then acc
    else
      var a, item := ItemsFold(acc, items[..|items| - 1]), items[|items| - 1];
      if item.kind == "text" && item.text != "" && a == "" then item.text else a
  }

  /** One event of the stream applied to the captured text. */
  function Step(acc: string, e: Event): string {
    match e
    case ResultEvent(r) => if r != "" then r else acc
    case AssistantEvent(Items(items)) => ItemsFold(acc, items)
    case AssistantEvent(Plain(t)) => if acc == "" then t else acc
    case AssistantEvent(Unusable) => acc
    case OtherEvent => acc
  }

  /** The text captured from a whole stream. */
  function Captured(events: seq<Event>): string
    decreases |events|
  {
    if events == [] then "" else Step(Captured(events[..|events| - 1]), events[|events| - 1])
  }

  /** The loop over the stream of one attempt. */
  method FoldEvents(events: seq<Event>) returns (translationResult: string)
    ensures translationResult == Captured(events)
  {
    translationResult := "";
    for i := 0 to |events|
      invariant translationResult == Captured(events[..i])
    {
      var message := events[i];
      match message {
        case ResultEvent(r) =>
          if r != "" {
            translationResult := r;
          }
        case AssistantEvent(Items(items)) =>
          ghost var before := translationResult;
          for j := 0 to |items|
            invariant translationResult == ItemsFold(before, items[..j])
          {
            var item := items[j];
            if item.kind == "text" && item.text != "" && translationResult == "" {
              translationResult := item.text;
            }
            assert items[..j + 1][..j] == items[..j];
          }
          assert items[..|items|] == items;
        case AssistantEvent(Plain(t)) =>
          if translationResult == "" {
            translationResult := t;
          }
        case AssistantEvent(Unusable) =>
        case OtherEvent =>
      }
      assert events[..i + 1][..i] == events[..i];
    }
    assert events[..|events|] == events;
  }

  /** The truthy `result` payloads of a stream, in order. */
  function Results(events: seq<Event>): (r: seq<string>)
    ensures forall k :: 0 <= k < |r| ==> r[k] != ""
    decreases |events|
  {
    if events == [] then []
    else
      var e := events[|events| - 1];
      Results(events[..|events| - 1]) + (if e.ResultEvent? && e.result != "" then [e.result] else [])
  }

  /** The truthy texts of a content array's `text` items, in order. */
  function ItemTexts(items: seq<Item>): (r: seq<string>)
    ensures forall k :: 0 <= k < |r| ==> r[k] != ""
    decreases |items|
  {
    if items == [] then []
    else
      var item := items[|items| - 1];
      ItemTexts(items[..|items| - 1]) + (if item.kind == "text" && item.text != "" then [item.text] else [])
  }

  /** The truthy assistant texts of one event. */
  function EventTexts(e: Event): (r: seq<string>)
    ensures forall k :: 0 <= k < |r| ==> r[k] != ""
  {
    match e
    case AssistantEvent(Items(items)) => ItemTexts(items)
    case AssistantEvent(Plain(t)) => if t != "" then [t] else []
    case _ => []
  }

  /** The truthy assistant texts of a stream, in order. */
  function Texts(events: seq<Event>): (r: seq<string>)
    ensures forall k :: 0 <= k < |r| ==> r[k] != ""
    decreases |events|
  {
    if events == [] then [] else Texts(events[..|events| - 1]) + EventTexts(events[|events| - 1])
  }

  /** The inner fold keeps a filled slot and otherwise takes the first truthy `text` item. */
  lemma {:induction false} ItemsFoldFirst(acc: string, items: seq<Item>)
    ensures ItemsFold(acc, items) ==
      if acc != "" then acc else if ItemTexts(items) != [] then ItemTexts(items)[0] else ""
    decreases |items|
  {
    if items != [] {
      ItemsFoldFirst(acc, items[..|items| - 1]);
    }
  }

  /**
   * What a stream yields: the last truthy `result` payload when there is one
   * (a result overwrites whatever was captured); otherwise the first truthy
   * assistant text (assistant text only fills an empty slot); otherwise `""`.
   */
  lemma {:induction false} CapturedIsLastResultElseFirstText(events: seq<Event>)
    ensures Captured(events) ==
      if Results(events) != [] then Results(events)[|Results(events)| - 1]
      else if Texts(events) != [] then Texts(events)[0]
      else ""
    decreases |events|
  {
    if events != [] {
      var init, e := events[..|events| - 1], events[|events| - 1];
      CapturedIsLastResultElseFirstText(init);
      match e {
        case AssistantEvent(Items(items)) =>
          ItemsFoldFirst(Captured(init), items);
        case _ =>
      }
    }
  }

  /** A stream yields nothing exactly when it has no truthy result payload and no truthy assistant text. */
  lemma EmptyCapture(events: seq<Event>)
    ensures Captured(events) == "" <==> Results(events) == [] && Texts(events) == []
  {
    CapturedIsLastResultElseFirstText(events);
  }

  // ----- the attempt loop -----

  const TimeoutMessage: string := "Translation timeout after 30 seconds"
  const NoResultMessage: string := "No translation result received from Claude"
  const ExhaustedMessage: string := "Translation failed after all retries"

  /** How one attempt ends: its stream ran to completion, the 30-second timer won the race, or the call threw. */
  datatype Attempt = Completed(events: seq<Event>) | TimedOut | Failed(message: string)

  /** The value an attempt returns, or the message of the error it throws. */
  function AttemptResult(a: Attempt): (r: Result<string, string>)
    ensures r.Ok? <==> a.Completed? && Captured(a.events) != ""
    ensures r.Ok? ==> r.value != ""
    ensures r.Ok? ==> r.value == Captured(a.events)
    ensures a.Completed? && Captured(a.events) == "" ==> r == Err(NoResultMessage)
    ensures a.TimedOut? ==> r == Err(TimeoutMessage)
    ensures a.Failed? ==> r == Err(a.message)
  {
    match a
    case Completed(events) =>
      var t := Captured(events);
      if t == "" then Err(NoResultMessage) else Ok(t)
    case TimedOut => Err(TimeoutMessage)
    case Failed(m) => Err(m)
  }

  /** The `model` option passed to the generator: only `sonnet` is forwarded; anything else leaves it unset. */
  function ModelOption(model: Option<string>): (r: Option<string>)
    ensures r.Some? <==> model == Some("sonnet")
    ensures r.Some? ==> r == model
  {
    if model == Some("sonnet") then Some("sonnet") else None
  }

  /** The options of one generator call. */
  datatype Options = Options(
    model: Option<string>, maxTurns: nat, systemPrompt: string,
    allowedTools: seq<string>, disallowedTools: seq<string>)

  /** One generator call: the prompt and its options. */
  datatype Query = Query(prompt: string, options: Options)

  function AttemptQuery(prompt: string, systemPrompt: string, model: Option<string>): Query {
    Query(prompt, Options(ModelOption(model), 3, systemPrompt, [], ["TodoWrite", "Task", "WebSearch"]))
  }

  function Pow2(n: nat): (r: nat)
    ensures r >= 1
  {
    if n == 0 then 1 else 2 * Pow2(n - 1)
  }

  /** The wait after failed attempt number `attempt`: `min(1000 * 2^(attempt-1), 5000)` milliseconds. */
  function Backoff(attempt: nat): (ms: nat)
    requires attempt >= 1
    ensures 1000 <= ms <= 5000
  {
    var w := 1000 * Pow2(attempt - 1);
    if w < 5000 then w else 5000
  }

  /** The waits after failed attempts `1..n`. */
  function Backoffs(n: nat): seq<nat>
  {
    if n == 0 then [] else Backoffs(n - 1) + [Backoff(n)]
  }

  /** Each wait doubles the previous one until it reaches the 5000 ms cap. */
  lemma BackoffDoubles(attempt: nat)
    requires attempt >= 1
    ensures Backoff(attempt + 1) == if 2 * Backoff(attempt) < 5000 then 2 * Backoff(attempt) else 5000
  {
  }

  /** Waits never shrink. */
  lemma {:induction false} BackoffMonotone(a: nat, b: nat)
    requires 1 <= a <= b
    ensures Backoff(a) <= Backoff(b)
    decreases b - a
  {
    if a < b {
      BackoffMonotone(a, b - 1);
      BackoffDoubles(b - 1);
    }
  }

  /** From the fourth failed attempt on, the wait is the cap. */
  lemma {:induction false} BackoffCapped(attempt: nat)
    requires attempt >= 4
    ensures Backoff(attempt) == 5000
    decreases attempt
  {
    if attempt > 4 {
      BackoffCapped(attempt - 1);
      BackoffDoubles(attempt - 1);
    }
  }

  lemma {:induction false} BackoffsShape(n: nat)
    ensures |Backoffs(n)| == n
    ensures forall k :: 0 <= k < n ==> Backoffs(n)[k] == Backoff(k + 1)
  {
    if n > 0 {
      BackoffsShape(n - 1);
    }
  }

  /** With the default three attempts all failing, the loop waits exactly 1000 ms and then 2000 ms. */
  lemma DefaultWaits()
    ensures Backoffs(3 - 1) == [1000, 2000]
  {
    assert Pow2(1) == 2;
  }

  /** The index of the first attempt among `outcomes` that returns text. */
  function FirstSuccess(outcomes: seq<Attempt>): (r: Option<nat>)
    ensures r.Some? ==> r.value < |outcomes| && AttemptResult(outcomes[r.value]).Ok?
    ensures forall k :: 0 <= k < |outcomes| && (r.None? || k < r.value) ==> AttemptResult(outcomes[k]).Err?
    decreases |outcomes|
  {
    if outcomes == [] then None
    else if AttemptResult(outcomes[0]).Ok? then Some(0)
    else match FirstSuccess(outcomes[1..])
      case None => None
      case Some(k) => Some(k + 1)
  }

  /**
   * What a run of `maxRetries` attempts returns or throws: the text of the
   * first attempt that returns any, else the error of the last attempt, and
   * the generic error when no attempt is made.
   */
  function RetryOutcome(maxRetries: int, outcomes: seq<Attempt>): Result<string, string>
    requires maxRetries <= |outcomes|
  {
    if maxRetries < 1 then Err(ExhaustedMessage)
    else match FirstSuccess(outcomes[..maxRetries])
      case Some(k) => AttemptResult(outcomes[k])
      case None => AttemptResult(outcomes[maxRetries - 1])
  }

  /** With every attempt timing out, the run throws the timeout error (whatever `maxRetries` is, if at least 1). */
  lemma AllTimeoutsThrowTimeout(maxRetries: int, outcomes: seq<Attempt>)
    requires 1 <= maxRetries <= |outcomes|
    requires forall k :: 0 <= k < maxRetries ==> outcomes[k] == TimedOut
    ensures RetryOutcome(maxRetries, outcomes) == Err(TimeoutMessage)
  {
    assert AttemptResult(outcomes[..maxRetries][maxRetries - 1]).Err?;
  }

  /**
   * `performTranslationWithRetry`. Attempt `k` (from 1) uses `outcomes[k-1]`;
   * the loop stops at the first attempt that returns text; after a failed
   * attempt other than the last it waits `Backoff(k)`; when every attempt
   * fails the last error's message is thrown, and with no attempt at all
   * (`maxRetries < 1`) the generic "failed after all retries" error.
   */
  method PerformTranslationWithRetry(
    translationPrompt: string, systemPrompt: string, model: Option<string>,
    maxRetries: int, outcomes: seq<Attempt>)
    returns (outcome: Result<string, string>, waits: seq<nat>, sent: seq<Query>)
    requires maxRetries <= |outcomes|
    ensures maxRetries < 1 ==> outcome == Err(ExhaustedMessage) && waits == [] && sent == []
    ensures maxRetries >= 1 ==>
      var n := |sent|;
      1 <= n <= maxRetries &&
      (forall k :: 0 <= k < n - 1 ==> AttemptResult(outcomes[k]).Err?) &&
      (outcome.Ok? ==> outcome == AttemptResult(outcomes[n - 1])) &&
      (outcome.Err? ==> n == maxRetries && outcome == AttemptResult(outcomes[n - 1])) &&
      waits == Backoffs(n - 1)
    ensures forall q :: q in sent ==> q == AttemptQuery(translationPrompt, systemPrompt, model)
    ensures outcome == RetryOutcome(maxRetries, outcomes)
  {
    var lastError: Option<string> := None;
    waits, sent := [], [];
    var attempt := 1;
    while attempt <= maxRetries
      invariant 1 <= attempt && |sent| == attempt - 1
      invariant attempt <= if maxRetries >= 1 then maxRetries + 1 else 1
      invariant forall k :: 0 <= k < attempt - 1 ==> AttemptResult(outcomes[k]).Err?
      invariant attempt == 1 ==> lastError == None && waits == []
      invariant attempt > 1 ==> lastError == Some(AttemptResult(outcomes[attempt - 2]).error)
      invariant attempt <= maxRetries ==> waits == Backoffs(attempt - 1)
      invariant attempt > maxRetries >= 1 ==> waits == Backoffs(maxRetries - 1)
      invariant forall q :: q in sent ==> q == AttemptQuery(translationPrompt, systemPrompt, model)
    {
      sent := sent + [AttemptQuery(translationPrompt, systemPrompt, model)];
      var error: string;
      match outcomes[attempt - 1] {
        case Completed(events) =>
          var translationResult := FoldEvents(events);
          if translationResult != "" {
            outcome := Ok(translationResult);
            RetryOutcomeAtSuccess(maxRetries, outcomes, attempt - 1);
            return;
          }
          error := NoResultMessage;
        case TimedOut =>
          error := TimeoutMessage;
        case Failed(m) =>
          error := m;
      }
      lastError := Some(error);
      if attempt < maxRetries {
        waits := waits + [Backoff(attempt)];
      }
      attempt := attempt + 1;
    }
    outcome := Err(if lastError.Some? then lastError.value else ExhaustedMessage);
    if maxRetries >= 1 {
      RetryOutcomeAllFailed(maxRetries, outcomes);
    }
  }

  /** When attempt `k` is the first to return text, the run returns that text. */
  lemma RetryOutcomeAtSuccess(maxRetries: int, outcomes: seq<Attempt>, k: nat)
    requires k < maxRetries <= |outcomes|
    requires forall j :: 0 <= j < k ==> AttemptResult(outcomes[j]).Err?
    requires AttemptResult(outcomes[k]).Ok?
    ensures RetryOutcome(maxRetries, outcomes) == AttemptResult(outcomes[k])
  {
    var tried := outcomes[..maxRetries];
    assert tried[k] == outcomes[k];
    assert FirstSuccess(tried) == Some(k);
  }

  /** When no attempt returns text, the run throws the last attempt's error. */
  lemma RetryOutcomeAllFailed(maxRetries: int, outcomes: seq<Attempt>)
    requires 1 <= maxRetries <= |outcomes|
    requires forall j :: 0 <= j < maxRetries ==> AttemptResult(outcomes[j]).Err?
    ensures RetryOutcome(maxRetries, outcomes) == AttemptResult(outcomes[maxRetries - 1])
  {
    assert FirstSuccess(outcomes[..maxRetries]).None?;
  }
}
