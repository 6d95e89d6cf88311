# Sentence-aligned translation pipeline — a Dafny model

This project models the translation request pipeline of a small web service
that translates a text between three registers (`ancient` — Classical
Chinese, `modern` — Modern Simplified Chinese, and `english`) and returns the
original and each translation as blocks of numbered sentence tags
(`<s1>…</s1><s2>…</s2>…`). The parts modelled are these:

- **Prompt composer** (`prompt.dfy`, module `PromptComposer`). It builds the instruction text sent to the generator. The text holds the rules, the example block of the input register, one example section per requested output register, and then the source text verbatim. The same module holds the system preamble chosen by input register.
- **Response aligner** (`aligner.dfy`, module `ResponseAligner`). It holds hand-written matchers for the three regular expressions that cut the generator's reply into labelled blocks:
  - the strict input-block pattern;
  - the strict output-block pattern, which has a different terminator;
  - the loose, case-insensitive fallback pattern.
- **Response parser** (`parser.dfy`, module `ResponseParser`). This is `parseTranslationResponse` together with the handler's fallback pass over the requested languages.
- **Retry invoker** (`retry.dfy`, module `RetryInvoker`). It folds one attempt's event stream into the captured reply. It runs the bounded attempt loop with capped exponential backoff and passes on the last error. The generator is an injected sequence of per-attempt outcomes, and the waits are returned rather than slept.
- **Handlers** (`handler.dfy`, module `Handlers`). This covers the translate endpoint:
  - request validation;
  - the pipeline composer → invoker → parser → fallback;
  - the mapping of a thrown error to status 504/429/500;
  - the query endpoint's rendering of the conversation history.
- **Sentence scanner** (`scan.dfy`, module `SentenceScanner`). This is the scan loop of the translation test script, which runs the global pattern `<s(\d+)>(.*?)<\/s\1>` with `exec` from `lastIndex`. The module also holds the script's count-agreement verdict.
- `text.dfy` (module `Text`) holds JavaScript's `\s`, `[A-Z]` and `\d` classes, `trim` and `includes`. `languages.dfy` (module `Languages`) holds the register registry. `wrappers.dfy` holds `Option`/`Result`.

Every regular expression is modelled as a matcher over `seq<char>`:

- A backtracking engine tries the longest extent of a greedy run (`\s*`, `[A-Z]+`, `\d+`) first, and keeps it when the rest of the pattern succeeds from there. The matchers therefore use the longest run. The rest always succeeds from the longest run, for one of two reasons:
  - a `[A-Z]+`, a `\d+`, or a `\s*` before `(` or `(文言文)` is followed by a character its own class excludes, which only the longest run reaches;
  - a `\s*` before `(.*?)` or `(.*)` is followed by a group that can run on to the end of the text, where `$` holds, because the `s` flag lets `.` match line breaks.
- A lazy group followed by a lookahead stops at the first position where the lookahead holds.
- `$` is the end of the text, because no pattern has the `m` flag.
- The `i` flag of the fallback folds ASCII letters only. This is JavaScript's non-Unicode case folding, which never maps a non-ASCII character onto an ASCII one.

Where the design description and the code differ, the model follows the code:

- In one attempt's stream, the **last** truthy `result` event wins, because each one overwrites the captured text (src/server.js:151-152). Assistant text is only a fallback.
- The fallback pass also runs for a requested register whose strict block was found but is the empty string, because the test is on truthiness (src/server.js:248).
- The input block and the output blocks use **different** terminators (src/server.js:87-91 against 103-107).
- With `maxRetries < 1` no attempt is made, and the generic error "Translation failed after all retries" is thrown (src/server.js:195).

## Model

| member | source | states |
|---|---|---|
| Languages.Parse | src/server.js:25-29 | a request string names a register exactly when it is `ancient`, `modern` or `english`, and the register found has that spelling |
| Languages.Label | src/server.js:44 | the header label is the upper-cased spelling, character by character, and consists of capitals only |
| Languages.ParseName | src/server.js:25-29 | the registry recognises the spelling of every register as that register |
| Text.Trim | src/server.js:96 | `trim` leaves an infix that only whitespace surrounds, and the infix neither starts nor ends with whitespace |
| Text.TrimUnique | src/server.js:96 | any whitespace-padded infix with non-whitespace ends is the trimmed string |
| Text.TrimAfterSpaces | src/server.js:251-254 | skipping any stretch of whitespace before the text makes no difference to `trim` |
| Text.TrimAfterSpan | src/server.js:251-254 | a greedy `\s*` before a trimmed capture changes nothing |
| PromptComposer.Header | src/server.js:44 | the input header is the upper-cased register followed by `:`; it is followed by ` (文言文)` before the colon exactly when the register is `ancient` |
| PromptComposer.IntroShowsInputHeader | src/server.js:31-46 | right after the seven rules comes the input register's header and then the opening of its example block |
| PromptComposer.SectionOpensWithHeader | src/server.js:50-60 | each example section opens on a new line with the register's header on a line of its own |
| PromptComposer.Section | src/server.js:48-61 | an entry of `outputLanguages` adds a section exactly when it is a registered spelling |
| PromptComposer.SectionOfEntry | src/server.js:50-60 | a recognised entry adds the example section of the register it names: it opens with a newline, that register's header and a newline |
| PromptComposer.CreateTranslationPrompt | src/server.js:24-66 | the loop that appends sections builds the prompt: the introduction, then the sections of the entries in request order, then the marker and the text |
| PromptComposer.SectionsAppend | src/server.js:48-61 | sections of consecutive parts of the request concatenate in request order |
| PromptComposer.SectionsOfRecognisedOnly | src/server.js:48-61 | unrecognised entries contribute nothing: the sections equal those of the recognised entries alone, in order |
| PromptComposer.PromptLayout | src/server.js:44-63 | the prompt is the introduction, then the recognised sections in request order, then `\n\nText to translate:\n`, then the source text verbatim as its final suffix |
| PromptComposer.SystemPrompt | src/server.js:225-232 | each of the three preambles asks for authentic classical grammar when translating to Ancient Chinese |
| ResponseAligner.HeaderEndAt | src/server.js:87-91 | a strict header starts at a position exactly when the label is there followed by `:`, or, for `ANCIENT` only, by optional whitespace and `(文言文):`; the result is the position after the colon |
| ResponseAligner.PlainHeaderMatches | src/server.js:89 | a label directly followed by a colon is a strict header ending after the colon |
| ResponseAligner.FindHeader | src/server.js:94 | the search returns the leftmost strict header at or after the start, and no header starts before it |
| ResponseAligner.BlockEnd | src/server.js:87 | the lazy capture stops at the first position where the terminator lookahead holds |
| ResponseAligner.Locate | src/server.js:87-113 | a block starts after the leftmost header's colon and the whitespace after it, and ends at the first terminator; there is none exactly when no header occurs |
| ResponseAligner.OutputEndIsInputEnd | src/server.js:87-107 | every output-block terminator (`\n[A-Z]+:` or end) also ends an input block |
| ResponseAligner.InputBlockWithinOutputBlock | src/server.js:87-107 | for the same register, the input block and the output block share header and start, and the input block ends no later |
| ResponseAligner.AncientLineEndsOnlyInputBlocks | src/server.js:87-103 | a line `ANCIENT (文言文):` ends an input block but does not end an output block |
| ResponseAligner.IndexOfIgnoringCase | src/server.js:251-252 | the fallback search finds the leftmost case-insensitive occurrence of the label |
| ResponseAligner.LooseMatch | src/server.js:251-255 | the fallback pattern matches exactly when the label occurs anywhere in the reply, ignoring case, and its value is the whole rest of the reply after the leftmost such occurrence and an optional colon, trimmed |
| ResponseAligner.LooseRest | src/server.js:251-254 | the trimmed capture of `:?\s*(.*)` is the whole rest of the reply after the optional colon, trimmed |
| ResponseParser.ParseTranslationResponse | src/server.js:69-117 | `original.language` is always the input register; an empty reply gives empty text and no translations; otherwise the original is the input block, and exactly the requested registers whose header occurs get their trimmed output block, keyed by spelling |
| ResponseParser.TranslationsEntries | src/server.js:100-114 | the keys of `translations` are spellings of requested registers whose header matched, and each holds its own output block |
| ResponseParser.RequestedHeaderIsRecognised | src/server.js:44-60 | the header the prompt asks for is a strict header for the parser, ending right after its colon |
| ResponseParser.ApplyFallback | src/server.js:247-257 | the loop over requested registers builds the fallback map in request order |
| ResponseParser.PatchSettles | src/server.js:248-255 | after one fallback step a register holds its refilled entry, and repeating the step changes nothing |
| ResponseParser.FallbackEntries | src/server.js:247-257 | after the pass, each requested register holds its entry if that was truthy, else the loose block if the label occurs, else its old entry; every other key is unchanged |
| ResponseParser.FallbackEntryOf | src/server.js:247-257 | after the pass, a register's entry is its refill when it was requested and its parsed entry otherwise |
| ResponseParser.FallbackOtherKey | src/server.js:247-257 | the pass leaves every key that spells no register as parsed |
| ResponseParser.FallbackIdempotent | src/server.js:247-257 | running the fallback pass a second time changes nothing |
| ResponseParser.FallbackKeepsStrictBlocks | src/server.js:248 | a non-empty block found by the strict parse survives the fallback pass |
| RetryInvoker.FoldEvents | src/server.js:151-167 | the nested loop over the stream computes the captured text of the event fold |
| RetryInvoker.ItemsFoldFirst | src/server.js:156-162 | over a content array, a filled slot is kept and an empty one takes the first truthy `text` item |
| RetryInvoker.CapturedIsLastResultElseFirstText | src/server.js:151-167 | the stream yields its last truthy `result` payload if it has one, otherwise its first truthy assistant text, otherwise the empty string |
| RetryInvoker.EmptyCapture | src/server.js:175-177 | an attempt captures nothing exactly when its stream has no truthy result and no truthy assistant text |
| RetryInvoker.AttemptResult | src/server.js:133-184 | an attempt returns text exactly when its stream completed with a non-empty capture, and the text is that capture; an empty capture throws the no-result error, a timeout the 30-second timeout error, and a failed call its own message |
| RetryInvoker.ModelOption | src/server.js:130 | the model option is set, to `sonnet`, exactly when the request asks for `sonnet` |
| RetryInvoker.Backoff | src/server.js:188 | each wait is between 1000 and 5000 ms |
| RetryInvoker.BackoffDoubles | src/server.js:188 | each wait doubles the previous one until the 5000 ms cap |
| RetryInvoker.BackoffMonotone | src/server.js:188 | waits never shrink from one attempt to a later one |
| RetryInvoker.BackoffCapped | src/server.js:188 | from the fourth failed attempt on, the wait is the 5000 ms cap |
| RetryInvoker.BackoffsShape | src/server.js:186-191 | the waits after attempts 1..n are one per attempt, in attempt order |
| RetryInvoker.DefaultWaits | src/server.js:120-191 | with the default three attempts, the waits are exactly 1000 ms and then 2000 ms |
| RetryInvoker.FirstSuccess | src/server.js:123-180 | finds the first attempt that returns text, and every earlier attempt throws |
| RetryInvoker.RetryOutcomeAtSuccess | src/server.js:123-180 | when an attempt is the first to return text, the run returns that text |
| RetryInvoker.RetryOutcomeAllFailed | src/server.js:123-195 | when no attempt returns text, the run throws the last attempt's error |
| RetryInvoker.AllTimeoutsThrowTimeout | src/server.js:133-195 | when every attempt times out, the run throws the timeout error |
| RetryInvoker.PerformTranslationWithRetry | src/server.js:120-196 | makes at most `maxRetries` attempts, each with the same prompt and options, and stops at the first that returns text; when all fail it throws the last error, or the generic error when no attempt was made; it waits `min(1000·2^(k-1), 5000)` after each failed attempt k except the last |
| Handlers.Validate | src/server.js:202-212 | a falsy text, a falsy input language, or a missing or empty output list is rejected, checked in that order, each with its own message |
| Handlers.Classify | src/server.js:272-289 | `timeout` in the message gives 504 with the timeout text; otherwise `rate limit` gives 429 with the rate-limit text; otherwise 500, with the no-result text exactly when `No translation result` occurs and the generic text otherwise; details are the message or a placeholder when it is empty |
| Handlers.TimeoutIs504 | src/server.js:134 | the attempt-timeout error maps to 504 with the timeout text |
| Handlers.SegmentAndTranslate | src/server.js:199-291 | a request that fails validation gets its 400 with no generator call; otherwise every call carries the composed prompt and the preamble; a thrown error is classified; a reply is parsed and then patched by the fallback pass |
| Handlers.AllTimeoutsGive504 | src/server.js:133-289 | when every attempt of a valid request times out, the answer is 504 |
| Handlers.Speaker | src/server.js:309 | role `user` is shown as `User` and every other role as `Assistant` |
| Handlers.RenderHistory | src/server.js:305-313 | an empty history renders as nothing; otherwise the opening line, each turn as `Role: content` and a blank line in order, then the closing line |
| Handlers.RenderStep | src/server.js:308-311 | appending one more `Role: content` and blank line extends the rendering by that turn |
| Handlers.TurnsTextAppend | src/server.js:308-311 | the rendering of a history is the renderings of its parts, one after the other |
| Handlers.TurnRenderedInPlace | src/server.js:308-311 | each turn's rendering sits right after the renderings of the turns before it |
| SentenceScanner.MatchAtWellFormed | tests/test_all_translations.js:48 | a match is an opening tag with a non-empty digit id, the content, and a closing tag with the same id, and the content holds no such closing tag |
| SentenceScanner.MatchAtComplete | tests/test_all_translations.js:48 | a well-formed tagged sentence is matched at its position with the same id and a content no longer than its own (the content is the shortest) |
| SentenceScanner.Exec | tests/test_all_translations.js:53 | `exec` returns a match found at or after `lastIndex`, and it is the pattern's match at its start |
| SentenceScanner.ExecLeftmost | tests/test_all_translations.js:53 | no match starts between `lastIndex` and the position `exec` returns, nor anywhere after `lastIndex` when it returns nothing |
| SentenceScanner.ExecNone | tests/test_all_translations.js:53 | `exec` returns nothing when no match starts at or after `lastIndex` |
| SentenceScanner.ScanFound | tests/test_all_translations.js:53-58 | every segment the loop collects is the pattern's match at its own start |
| SentenceScanner.ScanDisjointAt | tests/test_all_translations.js:53-58 | each collected match ends no later than the next one starts |
| SentenceScanner.ScanGapAt | tests/test_all_translations.js:53-58 | no match starts between the end of one collected match and the start of the next |
| SentenceScanner.ScanOrdered | tests/test_all_translations.js:53-58 | scanned segments are matches in order of appearance, without overlap, and no match starts before the first, in a gap between two, or after the last: the scan collects every sentence |
| SentenceScanner.ScanTailAt | tests/test_all_translations.js:53-58 | no match starts after the end of the last collected match |
| SentenceScanner.ScanStep | tests/test_all_translations.js:53-58 | one `exec` step moves `lastIndex` strictly forward and appends the found segment to those already collected |
| SentenceScanner.ScanSentences | tests/test_all_translations.js:51-58 | the `exec` loop collects the ids and contents of the scan, starting from position 0 |
| SentenceScanner.MismatchedCloseTag | tests/test_all_translations.js:48 | `<s1>a</s2>` yields no segment, because the closing tag must carry the opening number |
| SentenceScanner.NoOpeningNoSentence | tests/test_all_translations.js:67 | a block without `<s`, including the empty block a missing translation reads as, holds no sentence |
| SentenceScanner.CountSentences | tests/test_all_translations.js:63-75 | each requested language's count is the number of sentences in its block |
| SentenceScanner.EveryCountMatches | tests/test_all_translations.js:78-80 | `allMatch` holds exactly when every requested count equals the original's count |
| SentenceScanner.TestTranslation | tests/test_all_translations.js:47-101 | `allMatch` holds exactly when every requested block has as many sentences as the original; the verdict is `allMatch` but false when the original has no sentence |

## Left out

- HTTP plumbing is not modelled: the Express app, CORS, static file serving and `listen`. Console logging and the request-preview log are also out.
- The generator library call (`query`) is not modelled. Each attempt is an abstract outcome: a completed event stream, a timeout, or a thrown message. `RetryInvoker.PerformTranslationWithRetry` requires one outcome per attempt it may make (`maxRetries <= |outcomes|`). That precondition stands in for the external generator.
- Timing is not modelled. The 30-second race is the `TimedOut` outcome, and the backoff waits are returned, not slept. The late rejection of the timer that is never cleared is not modelled.
- ResponseParser.ParseTranslationResponse: it takes registered languages only. With a spelling outside `ancient|modern|english` the source's pattern is `undefined`, and `match(...)[1].trim()` throws a TypeError. That crash is not modelled.
- Handlers.SegmentAndTranslate requires every named language of a request that passes validation to be registered, for the reason above; a request that fails validation may name anything. It also takes the JSON fields already as strings: a falsy `text` or `inputLanguage` is `""`, and an absent list or model is `None`. Non-string and non-array JSON values are not modelled.
- Handlers.Classify: the timestamp (`new Date().toISOString()`) is passed in as a parameter. A thrown value that is not an `Error` (no `message`) is not modelled.
- The query endpoint is only modelled in its history rendering. Its validation, the query prompt and its single generator call are out.
- In the test script, the file read, the HTTP request and the console previews are out. Only the preview's throw on an empty original is kept, as the `false` verdict. The other test and demo scripts are not part of this model. Three of them repeat the same tag pattern.
- `performTranslationWithRetry` is only called with its default of three attempts. The handler model fixes that number (`Handlers.DefaultRetries`).
