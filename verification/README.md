# radionews core, modelled in Dafny

radionews is a browser app that turns a news item into a short radio bulletin. It fetches the
latest item of an RSS feed, or the article text of a web page, through public CORS proxies. A
language model rewrites the text for radio, a text-to-speech service reads it out, and the
result is played or saved under a timestamped file name. A scheduler can repeat the whole run
at chosen hours of the day.

This project models the sequential logic of that app as pure Dafny functions and proves what
the code promises:

- **Scheduling** (`Schedule`, `HourSet`): the once-a-minute check and arming of the timer, as
  written. A check that does not fire raises an error instead of showing its countdown, and a
  first check that does not fire leaves no timer armed (see Findings). Beside them sit the
  intended check, with its countdown to the next slot, the hour toggle, which keeps the list
  sorted and free of duplicates, and the minutes-field rule.
- **Run validation and pipeline** (`Generation`, `Filename`): the ordered configuration checks
  that run before anything starts. Then fetch, rewrite, synthesize and deliver, with the
  failure message of each stage, and the `noticia_DD-MM-YYYY__HH-MM.mp3` file name.
- **Content acquisition** (`Rss`, `Proxies`, `Dom`, `Fallback`): the feed and page loops over
  fixed proxy lists, as a first-success / exhaustive-failure search (`Fallback.FirstSuccess`, a
  loop with invariants). Each proxy attempt's selection rules work on an abstract document
  tree: first item, preferred body field, content selectors, paragraph fallback, noise
  removal, title search and length floors.
- **Rewriting service** (`Ai`): the closed four-way provider dispatch, the credential check
  before any request, the prompt and its word target `floor(t × 2.5)`, and each provider's
  rule for rejecting an empty answer.

`Text` gives the JavaScript built-ins the code relies on: `trim`, `toString`,
`padStart(2, '0')` and `parseInt`. `Wrappers` holds `Option` and `Result`.

Outside effects are parameters. The network reply of each proxy is a sequence of abstract
replies, and the HTML/XML/JSON parsers are function parameters. The model's reply, the speech
service's answer, the clock reading and the text clean-up applied to the rewrite are also
parameters. Time of day is milliseconds since midnight of a plain 24-hour day.

## Model

| member | source | states |
|---|---|---|
| Text.TrimShape | src/services/rss.ts:181 | `trim` returns the slice left after removing leading and trailing white space; the removed parts are all white space and the result neither starts nor ends with it |
| Text.TrimIdempotent | src/App.tsx:261 | trimming twice gives the same text as trimming once |
| Text.TrimEmptyIffBlank | src/services/ai.ts:53 | the trim is empty exactly when every character is white space |
| Text.DecimalRoundTrip | src/App.tsx:136-137 | reading back the decimal digits of `n.toString()` gives `n` |
| Text.PadTwo | src/App.tsx:137 | `padStart(2, '0')` of a number is all digits, denotes the number, is two characters below 100 and the plain digits from 100 on |
| Text.ParseIntOfDigits | src/App.tsx:169 | `parseInt` of a digit string (not `0x`-prefixed) is the number the digits denote |
| Dom.FirstIsHeadOfQueryAll | src/services/rss.ts:35-40 | `querySelector` returns the first element `querySelectorAll` lists in document order, and nothing when the list is empty |
| Dom.Prune | src/services/rss.ts:188-189 | after removing every subtree that matches the noise list, no element matches it |
| Dom.PruneClean | src/services/rss.ts:188-189 | removal changes nothing in a tree that holds no noise element |
| Dom.PruneIdempotent | src/services/rss.ts:188-189 | removing the noise a second time changes nothing |
| Dom.PruneKeepsOutsideText | src/services/rss.ts:188-189 | after removal the text of the forest is exactly its text outside the noise subtrees, in order |
| Dom.PruneKeepsOutsideLabels | src/services/rss.ts:188-189 | after removal the elements of the forest are exactly those outside the noise subtrees, with their tags, classes and attributes, in document order |
| Dom.OutsideNothing | src/services/rss.ts:181 | with no noise selector the text kept is the whole `textContent` |
| Dom.ReplaceFirstFindsEdited | src/services/rss.ts:154-189 | editing the element a query found edits the document: with no match the document is unchanged, otherwise the same query now finds the edited element |
| Dom.FirstPath | src/services/rss.ts:154 | `querySelector` finds an element exactly when it has a position in the tree, and the node at that position is the one found |
| Dom.ReplaceAtPlaces | src/services/rss.ts:188-189 | after replacing the node at a position, that position holds the new node |
| Dom.ReplaceAtKeepsOthers | src/services/rss.ts:188-189 | replacing the node at a position keeps every other root, and the root on the path keeps its label |
| Dom.ReplaceFirstIsLocal | src/services/rss.ts:154-189 | editing the node a query found changes only that position: the document equals the original with the edited node put at the found position, and with no match it is unchanged |
| Fallback.FirstSuccess | src/services/rss.ts:9-55 | proxies are tried in order; the first success is returned, every earlier attempt failed, and failure is reported only after every attempt failed |
| Rss.GetLatestNews | src/services/rss.ts:2-56 | the feed result is the first of the three feed proxies whose attempt succeeds; the fixed error only when all three fail |
| Rss.FeedAttempt | src/services/rss.ts:10-52 | a feed attempt succeeds only on an OK, well-formed reply, with the title and body of the item `querySelector("item")` finds |
| Rss.FeedAttemptCases | src/services/rss.ts:20-48 | a feed attempt is skipped on a thrown error, non-OK status, parser error, no `item`, or empty title and body; otherwise it returns `title + "\n\n" + body` of the first item |
| Rss.ItemBody | src/services/rss.ts:42-44 | the body is the `content:encoded` text when non-empty, else the `description` text, else empty |
| Rss.FeedReadsOnlyFirstItem | src/services/rss.ts:40 | two feeds with the same first item give the same result, whatever follows it |
| Proxies.PageProxyShapes | src/services/rss.ts:62-66 | of the page proxies (codetabs, allorigins `/get`, cors-anywhere), only the second includes `allorigins.win/get` and so is unwrapped from JSON |
| Rss.ContainerSelector | src/services/rss.ts:136-159 | the container selector is the first of the 13 content selectors that matches anything; none is chosen only when none matches |
| Rss.LongParagraphs | src/services/rss.ts:171-176 | the fallback keeps exactly the paragraphs whose text is longer than 50 characters |
| Rss.LongParagraphsAppend | src/services/rss.ts:171-176 | keeping long paragraphs commutes with concatenation, so document order is kept |
| Rss.ParagraphFallback | src/services/rss.ts:162-179 | the fallback yields a `div` of the long paragraphs exactly when the page has more than three `p` elements |
| Rss.FindContainer | src/services/rss.ts:152-179 | a matching content selector supplies the container; only when none matches does the paragraph fallback decide |
| Rss.LandmarkBeatsFallback | src/services/rss.ts:153-162 | once any content selector matches, the container comes from a selector, never from the fallback |
| Rss.Clean | src/services/rss.ts:181-189 | the cleaned container keeps its tag, classes and attributes, holds no noise element, and its text and elements are exactly those outside the noise subtrees |
| Rss.NoiseGoneBeforeTitleSearch | src/services/rss.ts:186-202 | the title search reads the original document with the cleaned container at the container's position and nothing else changed; a fresh query finds the cleaned container |
| Rss.FindTitle | src/services/rss.ts:193-202 | the title is the trimmed text of the first title selector whose first match has non-blank text, else empty |
| Rss.ExtractArticle | src/services/rss.ts:133-212 | an extracted article needs a container with non-blank text and is longer than the 100-character floor plus the blank line |
| Rss.ArticleShape | src/services/rss.ts:181-212 | a successful extraction is the title, a blank line and the cleaned, trimmed content, which is longer than 100 characters; conversely a found, non-blank container whose cleaned content is longer than 100 characters always gives that article |
| Rss.BlankContainerFails | src/services/rss.ts:181-184 | a container with blank text ends the attempt |
| Rss.PageAttempt | src/services/rss.ts:74-220 | a page attempt succeeds only on an OK reply and returns text longer than the 100-character floor plus the blank line |
| Rss.PageAttemptCases | src/services/rss.ts:84-131 | a page attempt needs an OK reply, a page text of at least 100 characters (the JSON `contents` for the enveloping proxy) that parses without error, and an extracted article |
| Rss.GetNewsFromUrl | src/services/rss.ts:58-225 | the page result is the first of the three page proxies whose attempt succeeds; the fixed error only when all three fail |
| Ai.ProviderNameRoundTrip | src/services/ai.ts:17-28 | each provider is selected by its own name and only by it; any other name is unsupported |
| Ai.SelectedProviderName | src/services/ai.ts:12 | an unset provider variable selects `gemini`; a set one is used as given |
| Ai.ModelName | src/services/ai.ts:35 | the configured model wins; an unset one falls back to the provider's default, so a request always names a model |
| Ai.TargetWords | src/services/ai.ts:222 | the word target is the floor of `targetLength × 2.5` |
| Ai.SliderWordTargets | src/services/ai.ts:222 | the slider lengths 30 to 180 seconds give 75 to 450 words |
| Ai.CreatePrompt | src/services/ai.ts:219-248 | the prompt opens with the fixed instruction and ends with the original text followed by the closing instruction |
| Ai.PromptEmbedsTextAndCount | src/services/ai.ts:224-247 | the original text and the decimal word target can both be read back out of the prompt |
| Ai.AcceptReply | src/services/ai.ts:48-61 | an accepted answer is the non-empty text of an OK reply (non-blank for Gemini); every provider accepts the non-blank text of an OK reply; a chat provider's non-OK reply is an API error with its status |
| Ai.BlankReplyAcceptance | src/services/ai.ts:53-55 | a whitespace-only answer is refused by Gemini and passed on by the chat providers |
| Ai.Process | src/services/ai.ts:64-113 | without the provider's key no request is sent and the error is "not configured"; with it exactly one request is sent |
| Ai.RewriteNewsArticle | src/services/ai.ts:11-29 | an unsupported provider name fails without a request; the verdict depends only on the configuration and the reply |
| Ai.DispatchGoesToSelectedProvider | src/services/ai.ts:11-29 | the call goes only to the selected provider, using its own key and model and the prompt for the text; with its key set the verdict is that provider's acceptance rule on the reply; there is no retry and no second provider |
| Ai.ChatRequestShape | src/services/ai.ts:77-94 | a chat request sends one user message holding the prompt, with `max_tokens` 2000 and temperature 0.7, authorised by the provider's key |
| HourSet.Toggle | src/App.tsx:160-166 | a present hour is dropped and nothing new appears; an absent hour is added once and the list comes back in ascending order |
| HourSet.ToggleMembership | src/App.tsx:160-166 | toggling removes a present hour and adds an absent one, and changes no other hour |
| HourSet.ToggleKeepsStrictlySorted | src/App.tsx:160-166 | a sorted list without duplicates stays sorted and without duplicates |
| HourSet.ToggleTwice | src/App.tsx:160-166 | toggling the same hour twice restores a sorted list |
| HourSet.SortSorted | src/App.tsx:164 | `sort((a, b) => a - b)` leaves a list that is already in ascending order unchanged |
| HourSet.ReachableListsSorted | src/App.tsx:26 | every hour list reachable from the empty list by toggles of hours 0 to 23 is sorted and without duplicates |
| Schedule.MinutesChange | src/App.tsx:168-173 | the field takes the new text only when it is empty or parses to 0..59; otherwise it keeps its value |
| Schedule.MinutesFieldStaysValid | src/App.tsx:72 | after any series of edits the scheduler's target minute `parseInt(minutes) \|\| 0` lies in 0..59, with empty text read as 0 |
| Schedule.Tick | src/App.tsx:68-111 | a check starts a run exactly when the current hour is selected and the current minute equals the target minute; any other check raises an error, because `minutes` is read at line 91 before line 109's `const minutes` is initialised |
| Schedule.TickIntended | src/App.tsx:68-111 | the intended check starts a run exactly when the current hour is selected and the minute matches, and otherwise shows a countdown |
| Schedule.TickAgreesOnFiring | src/App.tsx:68-111 | the check as written and the intended one take the same firing decision; where the intended one shows a countdown, the one as written raises an error |
| Schedule.NextSlotAsWritten | src/App.tsx:93-99 | as written, the next slot is a selected hour, and it is tomorrow exactly when that hour is not after the current hour |
| Schedule.AsWrittenRule | src/App.tsx:93-99 | as written, the next slot is the smallest selected hour after the current hour, today, or else the first selected hour tomorrow |
| Schedule.AsWrittenCountdownBounds | src/App.tsx:101-111 | the countdown lines 93-111 compute for a given target minute is positive and under 25 hours, shown as 0..24 hours and 0..59 minutes |
| Schedule.CountdownOf | src/App.tsx:107-109 | the countdown is whole hours, then whole minutes of the remainder |
| Schedule.AsWrittenMissesCurrentHour | src/App.tsx:93-99 | the rule of lines 93-99 never names a selected current hour whose target minute is still ahead, so its countdown would point past a check that fires first |
| Schedule.NextSlotExample | src/App.tsx:93-111 | hours 9 and 18, minute 30, at 09:15: the rule of lines 93-111 gives 9h 15m; the earliest-slot rule gives 0h 15m |
| Schedule.NextSlot | src/App.tsx:93-104 | the corrected next slot is a selected hour, and a slot today lies strictly after now |
| Schedule.NextSlotIsEarliest | src/App.tsx:87-111 | the corrected next slot is the earliest selected slot strictly after now, at most one day ahead |
| Schedule.NextSlotFiresFirst | src/App.tsx:68-111 | the corrected slot is at most a day ahead, a check at it fires, and no check strictly before it does |
| Schedule.CountdownNamesNextFiring | src/App.tsx:68-111 | with the corrected rule the countdown shown is the time to the next check that fires |
| Schedule.Arm | src/App.tsx:41-85 | arming is off with the switch off and refused without a feed address or without hours; otherwise the first check runs at once, and a 60000 ms timer is armed exactly when that check fires; when it does not, its error leaves the effect before `setInterval` and no timer is armed |
| Schedule.ArmIntended | src/App.tsx:41-85 | with the intended check a timer is armed whenever the switch is on with a feed address and hours, and the result agrees with the program wherever the program does not crash |
| Schedule.TickThrowsUnlessFiring | src/App.tsx:68-111 | hours 9 and 18, minute 30, at 09:15: the check raises an error and arming leaves no timer, where the intended check shows 0h 15m and arms the timer |
| Schedule.EachSlotFiresOncePerDay | src/App.tsx:81-85 | with checks every 60000 ms, each selected hour fires exactly once in every 1440 consecutive checks |
| Filename.GenerateFilename | src/App.tsx:136-144 | the name is `noticia_`, the two-digit day and month, the unpadded year, `__`, the two-digit hour and minute, and `.mp3` |
| Filename.ParseGenerate | src/App.tsx:136-144 | every field can be read back out of the file name |
| Filename.FilenameInjective | src/App.tsx:136-144 | different completion minutes never share a file name |
| Filename.RecordPath | src/App.tsx:322-326 | the saved record's path is `/noticias/` followed by the file name |
| Generation.Validate | src/App.tsx:185-228 | a run may start exactly when an address and a voice are given, auto mode has a feed address, the selected known provider has its key, and the speech key is set |
| Generation.ValidateReportsFirstFailingCheck | src/App.tsx:185-228 | the checks run in order and the first failing one decides the message |
| Generation.ValidationCoversProviderKey | src/App.tsx:196-223 | after validation the rewriting service never fails for a missing key; an unknown provider passes validation and fails later as unsupported |
| Generation.ToggleAutoGenerate | src/App.tsx:175-182 | auto mode cannot be switched on while a page address is filled in; the switch stays as it was |
| Generation.Generate | src/App.tsx:184-346 | a started run fetches first and never again, makes at most three outside calls, and delivers only after all three |
| Generation.NoCallBeforeValidation | src/App.tsx:184-239 | a failing check ends the run with its message and no outside call; a passing one always starts with the fetch |
| Generation.FeedTakesPrecedence | src/App.tsx:239-259 | with a feed address the page is never fetched |
| Generation.ShortNewsStopsBeforeRewrite | src/App.tsx:261-264 | fetched text under 50 characters once trimmed ends the run before the rewriting service is called |
| Generation.RewriteFailureIsGeneric | src/App.tsx:270-304 | any rewriting failure surfaces as one generic message and stops the run before speech synthesis |
| Generation.DeliveryShape | src/App.tsx:239-331 | a delivered run made the fetch, rewrite and synthesis calls in order and either saved the record path or plays the audio address |

## Left out

- The text-to-speech client (`src/services/elevenlabs.ts`) is an outside call. Its answer is a `Result` parameter of the run.
- `src/services/gemini.ts` is not part of this model. Nothing in the app imports it.
- HTML/XML parsing, CSS selector matching, `DOMParser`, `encodeURIComponent` and `fetch`. A document is an abstract element tree, and only the three selector forms the code uses are modelled (tag, class, `[role="main"]`). The parsers are function parameters, and a timeout or network error is a `Threw` reply.
- Timers, `AbortController`, async/await and React state and effects. The interval timer is a pure tick function plus the ideal check times `armedAt + k × 60000`. The missing guard against overlapping scheduled runs is a concurrency matter and is not modelled.
- The regular-expression clean-up of the rewritten text and the word-count advisory (src/App.tsx:273-298). The clean-up is an abstract function parameter, and the advisory only logs.
- Locale formatting of the timestamp (src/App.tsx:123-134), the simulated progress bar (src/App.tsx:146-158), voice loading, JSX rendering and logging.
- Calendar and daylight-saving effects of `setDate(+1)`: a day is always 86400000 ms.
- String lengths are counted in characters, not UTF-16 code units. `parseInt` works on exact integers, without double-precision rounding of very long digit strings.
- Generation.DeliveryShape: the stage the progress label shows and the final `Concluído!` label are not modelled.
- Generation.RewriteFailureIsGeneric: the detailed provider error (status and body) is logged by the code but replaced by the generic message, so the model keeps only the generic message.
- Schedule.Tick: what happens after the error a non-firing check raises is not modelled. The timer keeps running when a later check raises, and an error escaping the effect at arming is left to React.
- Rss.ItemBody: the selector `content\:encoded` is assumed to match the element named `content:encoded`. Whether a browser's selector engine matches a prefixed XML element that way is not modelled.

## Findings

| source | as written | input that shows it | evidently intended | confidence | as-written member | corrected member |
|---|---|---|---|---|---|---|
| src/App.tsx:91-109 | `updateNextGenerationTime` reads `minutes` at line 91 to get the target minute, but line 109 declares `const minutes` in the same function body, so line 91 reads it before initialisation and raises a ReferenceError | hours 9 and 18, minute 30, at 09:15:00: the check raises instead of showing a countdown; arming at that moment stops at the first check (line 82) and never reaches `setInterval` (line 85) | line 91 reads the state's minutes and the countdown is shown, 0h 15m here, since the label shown with it reads "Próxima geração em:" (src/App.tsx:475), the time until the next generation | high (not executed) | Schedule.TickThrowsUnlessFiring | Schedule.CountdownNamesNextFiring |
| src/App.tsx:93-99 | a latent defect, hidden until the line 109 shadowing is fixed: the next hour is `find(hour => hour > currentHour)`, so a selected current hour whose target minute is still ahead is never chosen; the second test (line 96) can only repeat the first choice | hours 9 and 18, minute 30, at 09:15:00: once the error above is fixed, lines 93-111 would show 9h 15m (18:30) although the 09:30 check fires; with hours {9} alone they would show 24h 15m | the countdown names the earliest selected slot strictly after now, 0h 15m here, since the label shown with it reads "Próxima geração em:" (src/App.tsx:475), the time until the next generation | high (not executed) | Schedule.AsWrittenMissesCurrentHour | Schedule.CountdownNamesNextFiring |
