/**
 * The translate handler (`POST /api/segment-and-translate`): request
 * validation, the pipeline prompt composer → retry invoker → response
 * parser → fallback pass, and the mapping of a thrown error to an HTTP
 * status; plus the conversation-history rendering of the query handler.
 */
module Handlers {
  import opened Wrappers
  import opened Text
  import opened Languages
  import opened PromptComposer
  import opened ResponseAligner
  import opened ResponseParser
  import opened RetryInvoker

  /**
   * The JSON body of a translate request. A falsy `text` or `inputLanguage`
   * is `""`; a missing `outputLanguages` or `model` is `None`.
   */
  datatype Request = Request(text: string, inputLanguage: string, outputLanguages: Option<seq<string>>, model: Option<string>)

  /** What the handler sends: the parsed result (200), a validation error (400), or an error with status, details and timestamp. */
  datatype Response =
    | Success(body: Parsed)
    | BadRequest(error: string)
    | ServerError(status: nat, error: string, details: string, timestamp: string)

  function Status(r: Response): nat {
    match r
    case Success(_) => 200
    case BadRequest(_) => 400
    case ServerError(status, _, _, _) => status
  }

  const TextRequired: string := "Text is required"
  const InputRequired: string := "Input language is required"
  const OutputRequired: string := "At least one output language is required"

  /** The three checks, in order: `text`, then `inputLanguage`, then a non-empty `outputLanguages`. */
  function Validate(req: Request): (r: Option<string>)
    ensures r.None? <==>
      req.text != "" && req.inputLanguage != "" && req.outputLanguages.Some? && req.outputLanguages.value != []
    ensures req.text == "" ==> r == Some(TextRequired)
    ensures req.text != "" && req.inputLanguage == "" ==> r == Some(InputRequired)
    ensures req.text != "" && req.inputLanguage != "" && r.Some? ==> r == Some(OutputRequired)
  {
    if req.text == "" then Some(TextRequired)
    else if req.inputLanguage == "" then Some(InputRequired)
    else if req.outputLanguages.None? || req.outputLanguages.value == [] then Some(OutputRequired)
    else None
  }

  const TimeoutReply: string := "Translation timed out. Please try again with shorter text or select fewer output languages."
  const RateLimitReply: string := "Too many requests. Please wait a moment and try again."
  const NoResultReply: string := "Claude did not return a translation. Please try again."
  const GenericReply: string := "Translation failed"
  const UnknownDetails: string := "Unknown error occurred"

  /**
   * The catch block: a message mentioning `timeout` is a 504, otherwise one
   * mentioning `rate limit` a 429, otherwise a 500 whose text is special
   * when the message mentions `No translation result`; the details are the
   * message (or a placeholder for an empty one) and the timestamp is the
   * clock reading passed in.
   */
  function Classify(message: string, timestamp: string): (r: Response)
    ensures r.ServerError? && r.timestamp == timestamp
    ensures r.details == if message == "" then UnknownDetails else message
    ensures r.status == 504 <==> Includes(message, "timeout")
    ensures r.status == 429 <==> !Includes(message, "timeout") && Includes(message, "rate limit")
    ensures r.status == 500 <==> !Includes(message, "timeout") && !Includes(message, "rate limit")
    ensures r.status == 504 ==> r.error == TimeoutReply
    ensures r.status == 429 ==> r.error == RateLimitReply
    ensures r.status == 500 ==> (r.error == NoResultReply <==> Includes(message, "No translation result"))
    ensures r.status == 500 && !Includes(message, "No translation result") ==> r.error == GenericReply
  {
    var (status, error) :=
      if Includes(message, "timeout") then (504, TimeoutReply)
      else if Includes(message, "rate limit") then (429, RateLimitReply)
      else if Includes(message, "No translation result") then (500, NoResultReply)
      else (500, GenericReply);
    ServerError(status, error, if message == "" then UnknownDetails else message, timestamp)
  }

  /** The attempt-timeout error maps to 504. */
  lemma TimeoutIs504(timestamp: string)
    ensures Classify(TimeoutMessage, timestamp) ==
      ServerError(504, TimeoutReply, TimeoutMessage, timestamp)
  {
    assert TimeoutMessage == "Translation " + "timeout" + " after 30 seconds";
    assert OccursAt(TimeoutMessage, "timeout", 12);
    IncludesAt(TimeoutMessage, "timeout", 12);
  }

  /** The registered languages a validated request names. */
  function ToLanguages(outs: seq<string>): (r: seq<Language>)
    requires forall k :: 0 <= k < |outs| ==> Parse(outs[k]).Some?
    ensures |r| == |outs| && forall k :: 0 <= k < |r| ==> Name(r[k]) == outs[k]
  {
    if outs == [] then [] else [Parse(outs[0]).value] + ToLanguages(outs[1..])
  }

  /** Every language the request names is registered (an unregistered one makes the source's parser throw). */
  predicate Registered(req: Request) {
    (req.inputLanguage == "" || Parse(req.inputLanguage).Some?) &&
    (req.outputLanguages.Some? ==> forall k :: 0 <= k < |req.outputLanguages.value| ==> Parse(req.outputLanguages.value[k]).Some?)
  }

  /** The number of attempts the handler asks for (the retry invoker's default). */
  const DefaultRetries: nat := 3

  /**
   * The translate handler. A request that fails validation gets its 400
   * with no generator call. Otherwise every generator call carries the
   * composed prompt and the system preamble of the input language; a thrown
   * error is classified; a reply is parsed and then patched by the fallback
   * pass.
   */
  method SegmentAndTranslate(req: Request, timestamp: string, outcomes: seq<Attempt>)
    returns (response: Response, sent: seq<Query>, waits: seq<nat>)
    requires Validate(req).None? ==> Registered(req)
    requires DefaultRetries <= |outcomes|
    ensures Validate(req).Some? ==> response == BadRequest(Validate(req).value) && sent == [] && waits == []
    ensures Validate(req).None? ==>
      var input := Parse(req.inputLanguage).value;
      var outs := req.outputLanguages.value;
      var r := RetryOutcome(DefaultRetries, outcomes);
      1 <= |sent| <= DefaultRetries &&
      (forall q :: q in sent ==> q == AttemptQuery(TranslationPrompt(req.text, input, outs), SystemPrompt(input), req.model)) &&
      (r.Err? ==> response == Classify(r.error, timestamp)) &&
      (r.Ok? ==> response == Success(Parsed(
        Original(input, OriginalText(r.value, input)),
        Fallback(r.value, ToLanguages(outs), Translations(r.value, ToLanguages(outs))))))
  {
    var invalid := Validate(req);
    if invalid.Some? {
      return BadRequest(invalid.value), [], [];
    }
    var inputLanguage := Parse(req.inputLanguage).value;
    var outputLanguages := req.outputLanguages.value;
    var translationPrompt := CreateTranslationPrompt(req.text, inputLanguage, outputLanguages);
    var systemPrompt := SystemPrompt(inputLanguage);
    var outcome;
    outcome, waits, sent := PerformTranslationWithRetry(translationPrompt, systemPrompt, req.model, DefaultRetries, outcomes);
    if outcome.Err? {
      response := Classify(outcome.error, timestamp);
      return;
    }
    var translationResult := outcome.value;
    var langs := ToLanguages(outputLanguages);
    var parsedResult := ParseTranslationResponse(translationResult, inputLanguage, langs);
    var patched := ApplyFallback(translationResult, langs, parsedResult.translations);
    response := Success(parsedResult.(translations := patched));
  }

  /**
   * When every attempt of a validated request times out, the handler
   * answers 504.
   */
  lemma AllTimeoutsGive504(outcomes: seq<Attempt>, timestamp: string)
    requires DefaultRetries <= |outcomes|
    requires forall k :: 0 <= k < DefaultRetries ==> outcomes[k] == TimedOut
    ensures RetryOutcome(DefaultRetries, outcomes).Err?
    ensures Status(Classify(RetryOutcome(DefaultRetries, outcomes).error, timestamp)) == 504
  {
    AllTimeoutsThrowTimeout(DefaultRetries, outcomes);
    TimeoutIs504(timestamp);
  }

  // ----- the query handler's conversation history -----

  /** One earlier exchange of the conversation: its `role` and its `content`. */
  datatype Turn = Turn(role: string, content: string)

  /** Role `user` is shown as `User`; every other role as `Assistant`. */
  function Speaker(role: string): (r: string)
    ensures r == "User" <==> role == "user"
    ensures r != "User" ==> r == "Assistant"
  {
    if role == "user" then "User" else "Assistant"
  }

  /** One rendered turn: `Speaker: content` and a blank line. */
  function TurnText(t: Turn): string {
    Speaker(t.role) + ": " + t.content + "\n\n"
  }

  /** The rendered turns, in conversation order. */
  function TurnsText(history: seq<Turn>): string
    decreases |history|
  {
    if history == [] then "" else TurnsText(history[..|history| - 1]) + TurnText(history[|history| - 1])
  }

  const HistoryOpening: string := "\n\nPrevious conversation:\n"
  const HistoryClosing: string := "Current question:\n"

  /**
   * The conversation context of a query: nothing for an absent or empty
   * history; otherwise the opening line, each turn rendered in order, and
   * the closing line.
   */
  method RenderHistory(conversationHistory: seq<Turn>) returns (conversationContext: string)
    ensures conversationHistory == [] ==> conversationContext == ""
    ensures conversationHistory != [] ==>
      conversationContext == HistoryOpening + TurnsText(conversationHistory) + HistoryClosing
  {
    conversationContext := "";
    if |conversationHistory| > 0 {
      conversationContext := HistoryOpening;
      for i := 0 to |conversationHistory|
        invariant conversationContext == HistoryOpening + TurnsText(conversationHistory[..i])
      {
        var msg := conversationHistory[i];
        var role := if msg.role == "user" then "User" else "Assistant";
        RenderStep(conversationHistory, i, HistoryOpening, role);
        conversationContext := conversationContext + role + ": " + msg.content + "\n\n";
      }
      assert conversationHistory[..|conversationHistory|] == conversationHistory;
      conversationContext := conversationContext + HistoryClosing;
    }
  }

  /** Appending the next turn's pieces to a rendering of the turns before it renders one turn more. */
  lemma RenderStep(history: seq<Turn>, i: nat, head: string, role: string)
    requires i < |history| && role == Speaker(history[i].role)
    ensures head + TurnsText(history[..i]) + role + ": " + history[i].content + "\n\n" == head + TurnsText(history[..i + 1])
  {
    assert history[..i + 1][..i] == history[..i];
    var t := TurnsText(history[..i]);
    AppendFour(head + t, role, ": ", history[i].content, "\n\n");
    AppendAssoc(head, t, TurnText(history[i]));
  }

  lemma AppendFour(p: string, a: string, b: string, c: string, d: string)
    ensures p + a + b + c + d == p + (a + b + c + d)
  {
  }

  /** The rendering of a history is the renderings of its parts, one after the other. */
  lemma {:induction false} TurnsTextAppend(a: seq<Turn>, b: seq<Turn>)
    ensures TurnsText(a + b) == TurnsText(a) + TurnsText(b)
    decreases |b|
  {
    if b == [] {
      assert a + b == a;
    } else {
      var init, last := b[..|b| - 1], b[|b| - 1];
      assert (a + b)[..|a + b| - 1] == a + init;
      TurnsTextAppend(a, init);
      AppendAssoc(TurnsText(a), TurnsText(init), TurnText(last));
    }
  }

  /** Each turn occupies its own stretch of the rendering, in conversation order. */
  lemma TurnRenderedInPlace(history: seq<Turn>, i: nat)
    requires i < |history|
    ensures var before := TurnsText(history[..i]);
      OccursAt(TurnsText(history), TurnText(history[i]), |before|)
  {
    var init, turn, tail := history[..i], history[i], history[i + 1..];
    assert history == init + ([turn] + tail);
    TurnsTextAppend(init, [turn] + tail);
    TurnsTextAppend([turn], tail);
    assert TurnsText([turn]) == TurnText(turn) by {
      assert [turn][..0] == [];
    }
    var before, middle, rest := TurnsText(init), TurnText(turn), TurnsText(tail);
    AppendAssoc(before, middle, rest);
    OccursInMiddle(before, middle, rest);
  }
}
