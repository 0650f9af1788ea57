# Discord AI translator: a verified model of its translation pipeline

The userscript `discord-ai-translator.user.js` adds a translation line under
each Discord message. It sends the message and a window of earlier messages
to a chat-completion endpoint. It cleans the reply, shows it, and keeps it in
an LRU cache stored in userscript storage. This project models the
deterministic core of that pipeline in Dafny and proves what the code
promises about it.

The parts modelled:

- **Translation cache** (`lru_cache.dfy`, module `LruCache`). The JavaScript
  `Map` is used as an ordered map whose insertion order is recency order.
  - `Lru` is its value: the keys oldest first, plus the key-to-value map.
  - `TranslationCache` is the mutable object. It holds the keys, the values,
    what storage last received, and a flag standing for the pending debounce
    timer.
  - Its methods are `loadCache`, `trimCacheToLimit`, `getFromCache`,
    `setCache`, `persistCacheSoon` (with the timer firing as a separate step)
    and `resetCache`. Each is proved against the `Lru` functions.
- **Text handling** (`text.dfy`, `normalize.dfy`). This covers
  `sanitizeText`, `truncate`, `escapeRegExp` and `normalizeTranslationText`.
  Every regular expression is written out as a matcher over characters.
- **Response handling** (`completion.dfy`). A JSON datatype stands for the
  parsed payload. `extractCompletionText` is modelled over it, and the checks
  `requestChatCompletion` applies to a reply become `RequestOutcome`, whose
  error messages are exactly the source's.
- **Context windows** (`context.dfy`). `collectContextForNode` and
  `collectLatestContext` are methods with their loops, over a sequence of
  message records.
- **Reply presets** (`presets.dfy`). `resolveReplyPreset` is a class holding
  `lastReplyPresetId`. The preset catalog is the source's.
- **Settings** (`settings.dfy`). This covers the defaults merge of
  `loadSettings`, `clampNumber` over integers, and `buildCacheKey`.
- **Scheduling** (`scheduler.dfy`). `scheduleTranslateForNode` with the
  pending-key set, the promise queue as a FIFO sequence of tasks, and
  `waitForRateLimit` with the clock as an input.
  - One `RunNext` runs the oldest task to its end: rate limit, request
    outcome, normalization, cache write, translation line or error line, and
    the key release of the `finally` block.
  - Ghost logs of the submitted and finished tasks and of every dispatch
    carry the ordering and spacing invariants.

Inputs that stand in for the environment:
- the visible message records (the DOM);
- the reply of the transport, including its parsed JSON (network and
  `JSON.parse`);
- the stored cache entries (storage);
- the clock readings before and after a sleep;
- the random roll in `[0, 1)`.

Two facts about the code:
- `normalizeTranslationText` removes at most one label per call (the label
  pattern has no `g` flag), so it is not idempotent.
  `NormalizeExamples.NormalizeNotIdempotent` and
  `NormalizeExamples.DoubleLabel` show it.
- The cache "never holds more than `maxCacheEntries`" only for a limit of at
  least 0. See "Findings".

## Model

| member | source | states |
|---|---|---|
| Text.Sanitize | discord-ai-translator.user.js:798-800 | The result has no whitespace run, no whitespace at either end, and the same non-whitespace characters in the same order as the input. |
| Text.SanitizeJoin | discord-ai-translator.user.js:798-800 | A whitespace run between two non-whitespace characters becomes exactly one space: sanitizing `a + w + b` gives `Sanitize(a) + " " + Sanitize(b)`. |
| Text.CollapseJoin | discord-ai-translator.user.js:799 | A whitespace run between two parts collapses to one space, and each part collapses on its own. |
| Text.TrimJoin | discord-ai-translator.user.js:799 | Trimming two parts joined by one space trims the front of the first part and the end of the second. |
| Text.SanitizeIdempotent | discord-ai-translator.user.js:798-800 | Sanitizing a sanitized text changes nothing. |
| Text.SanitizeOfSanitized | discord-ai-translator.user.js:798-800 | Text already in sanitized shape is returned unchanged. |
| Text.SanitizeEmpty | discord-ai-translator.user.js:798-800 | The result is empty exactly when every input character is whitespace (both directions). |
| Text.CollapseShape | discord-ai-translator.user.js:799 | `replace(/\s+/g, ' ')` leaves no run of whitespace, and every whitespace left is a plain space. It keeps every other character, in order. |
| Text.Collapse | discord-ai-translator.user.js:799 | Collapsing is empty only for the empty text, and keeps whether the text opens with whitespace. |
| Text.CollapseKeepsNoRuns | discord-ai-translator.user.js:799 | Text without runs and with only plain spaces is unchanged by the collapse. |
| Text.CollapseAppend | discord-ai-translator.user.js:799 | The collapse works part by part when the first part ends in a non-whitespace character. |
| Text.TrimStart | discord-ai-translator.user.js:799 | The result is a suffix of the input that does not open with whitespace, and everything dropped is whitespace. |
| Text.TrimEnd | discord-ai-translator.user.js:799 | The result is a prefix of the input that does not end in whitespace, and everything dropped is whitespace. |
| Text.Trim | discord-ai-translator.user.js:799 | `trim` gives a piece of its input that has no whitespace at either end and keeps every non-whitespace character of the input in order, so only whitespace is dropped. |
| Text.TrimStartSpaces | discord-ai-translator.user.js:799 | Leading whitespace in front of a part that opens with a non-whitespace character is exactly what `trimStart` removes. |
| Text.TrimEndAppend | discord-ai-translator.user.js:799 | Trailing whitespace is removed only from the last part when that part holds a non-whitespace character. |
| Text.TrimOfEdges | discord-ai-translator.user.js:799 | `trim` leaves text with non-whitespace ends unchanged. |
| Text.TrimOfNoRuns | discord-ai-translator.user.js:799 | Trimming text without runs gives sanitized text and drops only whitespace. |
| Text.NonSpaceOfSpaces | discord-ai-translator.user.js:799 | A text has no non-whitespace character exactly when it is all whitespace. |
| Text.Lower | discord-ai-translator.user.js:973 | Lower-casing keeps the length and folds each character on its own (ASCII folding). |
| Text.LowerAppend | discord-ai-translator.user.js:973 | Lower-casing works part by part: `Lower(a + b) == Lower(a) + Lower(b)`. |
| Text.LowerIdempotent | discord-ai-translator.user.js:973 | Lower-casing twice is lower-casing once. |
| Text.LowerOfNoCapitals | discord-ai-translator.user.js:973 | Text without a capital `A`-`Z` is unchanged by lower-casing. |
| Text.Truncate | discord-ai-translator.user.js:871-877 | Text of at most `limit` characters is returned unchanged. Longer text keeps exactly its first `limit` characters followed by `...`. |
| Normalizer.EscapeRegExp | discord-ai-translator.user.js:825-827 | The result is a pattern with every syntax character escaped, and it matches exactly the input text. It is between one and two times as long. |
| Normalizer.EscapePlain | discord-ai-translator.user.js:825-827 | A name without syntax characters is its own escaped pattern. |
| Normalizer.DropWord | discord-ai-translator.user.js:807 | The optional greedy `\w+` leaves a suffix that does not open with a word character. |
| Normalizer.UnwrapFence | discord-ai-translator.user.js:807 | The fence removal gives a piece of its input. Text not both opened and closed by a fence is unchanged. |
| Normalizer.UnwrapFenced | discord-ai-translator.user.js:807 | A fenced text becomes what lies between the fences, without the optional language word and the whitespace next to the fences. |
| Normalizer.AfterLabel | discord-ai-translator.user.js:810 | A label match leaves a strictly shorter suffix, and happens only when the text opens with the label regardless of case. |
| Normalizer.StripFirstLabel | discord-ai-translator.user.js:810 | The alternation yields a suffix. When some label matches, the result is what the first matching label in alternation order leaves; when none does, the text is unchanged. |
| Normalizer.StripLabel | discord-ai-translator.user.js:810 | Removing the label gives a suffix of the text. |
| Normalizer.AfterLabelOf | discord-ai-translator.user.js:810 | Any spelling of a label that agrees with it up to case, then whitespace, a colon (ASCII or full-width) and whitespace, is matched and leaves exactly the rest. |
| Normalizer.LabelMismatch | discord-ai-translator.user.js:810 | A text whose opening differs from a label, after lower-casing, at some position does not match that label. |
| Normalizer.EarlierLabelsMiss | discord-ai-translator.user.js:810 | A spelling of one of the four labels is matched by no label earlier in the alternation. |
| Normalizer.LabelStripped | discord-ai-translator.user.js:810 | For each of the four labels, any case spelling, whitespace, colon and whitespace in front of a text that opens with a non-whitespace character is removed, leaving exactly that text. |
| Normalizer.RunLength | discord-ai-translator.user.js:811 | The run of characters allowed inside a tag is maximal and within the text. |
| Normalizer.TagLength | discord-ai-translator.user.js:811 | A tag found is `[`, then 1 to 40 characters other than `]` and line breaks, then `]`. |
| Normalizer.StripTags | discord-ai-translator.user.js:811 | Removing the tags gives a suffix that no longer opens with a tag. |
| Normalizer.RunLengthOf | discord-ai-translator.user.js:811 | The run of tag-body characters is measured exactly up to the first `]`, line break or end. |
| Normalizer.TagOf | discord-ai-translator.user.js:811 | Conversely, every `[`, 1 to 40 tag-body characters and `]` is recognised as a tag of exactly that length. |
| Normalizer.LongTag | discord-ai-translator.user.js:811 | A bracketed body of 41 or more characters is no tag, and the text keeps it. |
| Normalizer.StripOneTag | discord-ai-translator.user.js:811 | A leading tag and the whitespace after it are removed, and tag removal goes on from what follows. |
| Normalizer.StripAuthorPrefix | discord-ai-translator.user.js:816 | The `Name:` removal gives a suffix, and changes the text only when it opens with the name regardless of case. |
| Normalizer.StripAuthorTag | discord-ai-translator.user.js:817 | The `[Name]` removal gives a suffix, and changes the text only when it opens with a bracketed run of the name's length. |
| Normalizer.StripAuthor | discord-ai-translator.user.js:813-819 | The author step gives a suffix of its input. |
| Normalizer.Strip | discord-ai-translator.user.js:806-819 | The fence, label, tag and author removal yields a piece of the sanitized text. |
| Normalizer.NormalizeTranslation | discord-ai-translator.user.js:802-823 | The result is sanitized and is a piece of the sanitized input. It is never empty when the sanitized input is not, because of the fallback to the original. |
| NormalizeExamples.FencedLabelledReply | discord-ai-translator.user.js:802-823 | For every clean sentence that opens with neither a tag nor the author, a fenced reply labelled `译文:` normalizes to that sentence. |
| NormalizeExamples.HelloThere | discord-ai-translator.user.js:802-823 | The reply made of a fence line, the line `译文: Hello there` and a closing fence line, with author `Alice`, gives `Hello there`. |
| NormalizeExamples.AuthorPrefix | discord-ai-translator.user.js:816 | `Name`, one of `:`, `：` or `-`, and a space in front of a sentence are removed. |
| NormalizeExamples.AuthorTag | discord-ai-translator.user.js:817 | `[Name]` and a space in front of a sentence are removed. |
| NormalizeExamples.AuthorLabelled | discord-ai-translator.user.js:813-819 | For a trimmed author name without pattern syntax, the author step turns `Author: sentence` into the sentence. |
| NormalizeExamples.AuthorTagged | discord-ai-translator.user.js:813-819 | For the same names, the author step turns `[Author] sentence` into the sentence. |
| NormalizeExamples.AuthorReply | discord-ai-translator.user.js:802-823 | A reply `Author: sentence` normalizes to the sentence. This holds for any clean sentence and any clean author name that has no pattern syntax and opens with neither a fence nor a label word. |
| NormalizeExamples.AliceUnlabelled | discord-ai-translator.user.js:810 | `Alice: Hello there` opens with none of the four labels, so the label step leaves it. |
| NormalizeExamples.AliceSaysHello | discord-ai-translator.user.js:802-823 | `Alice: Hello there` from author `Alice` gives `Hello there`. |
| NormalizeExamples.LabelledOnce | discord-ai-translator.user.js:810 | One `译文:` label in front of a clean sentence is removed. |
| NormalizeExamples.ChineseLabel | discord-ai-translator.user.js:810 | The label alternation strips `译文:` from a labelled clean sentence. |
| NormalizeExamples.DoubleLabel | discord-ai-translator.user.js:810 | For any of the four labels, `l: l: h` loses only the first label. |
| NormalizeExamples.DoubleEnglishLabel | discord-ai-translator.user.js:810 | `translation: translation: h` becomes `translation: h`. |
| NormalizeExamples.NormalizeNotIdempotent | discord-ai-translator.user.js:810 | A doubly labelled sentence loses one label per call, so normalizing twice differs from normalizing once. |
| LruCache.Delete | discord-ai-translator.user.js:1110 | `delete` keeps the map well formed and removes exactly one key when present. |
| LruCache.Insert | discord-ai-translator.user.js:1111 | `set` keeps the map well formed. |
| LruCache.TrimTo | discord-ai-translator.user.js:560-566 | The oldest-first trimming loop keeps the map well formed. |
| LruCache.Kept | discord-ai-translator.user.js:560-566 | The number of entries kept is the size or the limit (at least 0), whichever is smaller. |
| LruCache.TrimKeepsNewest | discord-ai-translator.user.js:560-566 | Trimming keeps exactly the newest `min(size, max(limit, 0))` keys in order, each with its old value. |
| LruCache.TrimBound | discord-ai-translator.user.js:560-566 | At most `max(limit, 0)` entries survive, and a map within the limit is unchanged. |
| LruCache.SizeIsKeyCount | discord-ai-translator.user.js:561 | The map's size is its number of keys. |
| LruCache.Lookup | discord-ai-translator.user.js:1104-1113 | The lookup keeps the map well formed. |
| LruCache.LookupHit | discord-ai-translator.user.js:1104-1113 | A hit returns the stored value and moves only that key to the newest end. The keys, their number and all values are unchanged. |
| LruCache.LookupMiss | discord-ai-translator.user.js:1105-1107 | A miss returns the empty string and leaves the cache as it was. |
| LruCache.DeleteThenInsert | discord-ai-translator.user.js:1116-1119 | Delete-then-set puts the key at the newest end with its new value, the other keys in order. |
| LruCache.Put | discord-ai-translator.user.js:1115-1123 | `setCache` keeps the map well formed. |
| LruCache.PutIsNewest | discord-ai-translator.user.js:1115-1123 | `setCache` keeps the newest entries of the map with the key moved to the end and set. |
| LruCache.PutNewest | discord-ai-translator.user.js:1115-1123 | After `setCache` the size is within the limit. With a positive limit, the key is the newest entry and holds the new value. |
| LruCache.PutKeepsOthers | discord-ai-translator.user.js:1115-1123 | Every other surviving entry is an old entry with its old value. |
| LruCache.PutFits | discord-ai-translator.user.js:1115-1123 | With room left, `setCache` only moves the key to the newest end and sets it. |
| LruCache.CapacityTwo | discord-ai-translator.user.js:1115-1123 | With limit 2, setting A, B and C in turn leaves exactly B and C with their values, in that order. |
| LruCache.ThirdEvictsFirst | discord-ai-translator.user.js:1115-1123 | With limit 2, a third key evicts the oldest one. |
| LruCache.FirstEvicted | discord-ai-translator.user.js:560-566 | Trimming three entries to 2 drops the first. |
| LruCache.Pairs | discord-ai-translator.user.js:203 | `Object.fromEntries(cache.entries())` lists every entry once, oldest first. |
| LruCache.FromPairs | discord-ai-translator.user.js:188 | `new Map(Object.entries(obj))` gives a well-formed ordered map. |
| LruCache.FromDistinctPairs | discord-ai-translator.user.js:188 | Entries with distinct keys are rebuilt in the same order with the same values. |
| LruCache.LoadSpec | discord-ai-translator.user.js:174-195 | `loadCache` gives a well-formed map. |
| LruCache.SaveThenLoad | discord-ai-translator.user.js:174-206 | Loading what a save wrote gives the saved map trimmed to the load limit. |
| LruCache.ReloadAfterSave | discord-ai-translator.user.js:174-206 | A map within the limit is restored exactly by a save and a reload. |
| LruCache.LoadNothing | discord-ai-translator.user.js:175-186 | Missing or unparsable storage loads as the empty map. |
| LruCache.DeleteFirstAsWritten | discord-ai-translator.user.js:562-563 | One turn of the loop body as written. On an empty map it changes nothing. |
| LruCache.TrimAsWritten | discord-ai-translator.user.js:560-566 | The loop as written, run for a bounded number of turns, keeps the map well formed. |
| LruCache.TrimAsWrittenNeverExits | discord-ai-translator.user.js:188-192 | With a negative limit the loop guard holds after every number of turns. After as many turns as there are keys the map is empty, and the loop makes no further progress. |
| LruCache.TrimToNegative | discord-ai-translator.user.js:560-566 | The corrected loop ends and leaves no entry for a negative limit. |
| LruCache.TranslationCache.Load | discord-ai-translator.user.js:174-195 | The loaded object holds `LoadSpec` of what storage holds, with no save scheduled. |
| LruCache.TranslationCache.Trim | discord-ai-translator.user.js:560-566 | The loop deletes oldest keys in place until the size fits. The new contents are `TrimTo` of the old ones, and storage is untouched. |
| LruCache.TranslationCache.Get | discord-ai-translator.user.js:1104-1113 | The value returned and the new contents are `Lookup` of the old contents. Storage is untouched. |
| LruCache.TranslationCache.ScheduleSave | discord-ai-translator.user.js:197-200 | A save is scheduled and nothing else changes. |
| LruCache.TranslationCache.SaveNow | discord-ai-translator.user.js:201-205 | When the timer fires, storage receives the entries oldest first and no save remains scheduled. |
| LruCache.TranslationCache.Set | discord-ai-translator.user.js:1115-1123 | The new contents are `Put` of the old ones, and a save is scheduled. |
| LruCache.TranslationCache.Reset | discord-ai-translator.user.js:208-212 | The map is emptied and storage receives `{}` at once. |
| Completion.Field | discord-ai-translator.user.js:1047 | Optional property access yields a value exactly when the value is an object holding the name. |
| Completion.FirstChoice | discord-ai-translator.user.js:1045 | The choice is the first element of a non-empty `choices` array. |
| Completion.PartText | discord-ai-translator.user.js:1054-1059 | A string item contributes itself. Any other item contributes only a string `text` field, or nothing. |
| Completion.PartsAppend | discord-ai-translator.user.js:1053-1060 | The joined parts of two runs of items are the two joins, in order. |
| Completion.PartsOfStrings | discord-ai-translator.user.js:1053-1060 | Array content made of strings is their concatenation. |
| Completion.ExtractCompletionText | discord-ai-translator.user.js:1040-1069 | A non-object payload gives `""`. An array content always gives the join of its items, even an empty join, so `output_text` is then not consulted. Any non-empty result is the string content, the joined array content, or a string `output_text`. |
| Completion.ArrayContentWins | discord-ai-translator.user.js:1047-1061 | Whenever the content is an array, the result is the join of its items' contributions. |
| Completion.StringContentWins | discord-ai-translator.user.js:1047-1050 | A non-empty string content is returned exactly. |
| Completion.OutputTextFallback | discord-ai-translator.user.js:1064-1068 | Without usable content, a string `output_text` is returned, and anything else gives `""`. |
| Completion.HelloPayload | discord-ai-translator.user.js:1040-1069 | `{"choices":[{"message":{"content":"Hello"}}]}` gives `Hello`. |
| Completion.Detail | discord-ai-translator.user.js:1022 | The quoted body is its first 200 characters at most (all of a body that fits), or `unknown error` for a missing or empty body. |
| Completion.SuccessIff | discord-ai-translator.user.js:993-1038 | A request succeeds exactly when endpoint and model are set, the status is 2xx, the body parses and the extraction is non-empty (both directions). The text returned is that extraction. |
| Completion.StatusFailure | discord-ai-translator.user.js:1021-1023 | A status outside `[200, 300)` fails with that code. The message starts `HTTP <code>: ` and quotes at most 200 characters. |
| Completion.UnparsableFailure | discord-ai-translator.user.js:1025-1030 | A 2xx reply whose body does not parse fails as invalid JSON. |
| Completion.Decimal | discord-ai-translator.user.js:1022 | The rendering of a status code is never empty. |
| Completion.Digits | discord-ai-translator.user.js:1022 | A natural number renders as decimal digits. |
| Completion.DigitsRoundTrip | discord-ai-translator.user.js:1022 | Reading the rendered digits back gives the number. |
| Context.LineOf | discord-ai-translator.user.js:724 | A message's line has a non-empty author (`Unknown` by default), and its text is non-empty and at most `limit + 3` long. |
| Context.IndexOf | discord-ai-translator.user.js:831 | `findIndex` gives the first position holding the id, or -1 exactly when no position does. |
| Context.Lines | discord-ai-translator.user.js:839-848 | A window yields at most one line per message. |
| Context.LinesFrom | discord-ai-translator.user.js:839-848 | Every line of a window comes from a message of that window that has text. |
| Context.LinesSplit | discord-ai-translator.user.js:839-848 | A window split in two is the two windows of its halves, in order. |
| Context.LinesAllPresent | discord-ai-translator.user.js:839-848 | When every message has text, each contributes its line, in order. |
| Context.WindowStart | discord-ai-translator.user.js:837 | The window before `idx` holds `min(idx, max(1, maxCount))` positions. |
| Context.CollectContextForNode | discord-ai-translator.user.js:829-851 | The loop returns `ForNode`: nothing for an absent target, else the lines of the messages in the window before it. |
| Context.CollectLatestContext | discord-ai-translator.user.js:853-869 | The loop returns `Latest`: the lines of the last `maxCount` messages, truncated to 360, for any `maxCount`. |
| Context.AbsentTarget | discord-ai-translator.user.js:832-835 | A target that is not shown gets no context. |
| Context.ForNodeBounds | discord-ai-translator.user.js:829-851 | At most `max(1, maxCount)` lines, each from a message before the target, each text at most 303 characters. |
| Context.TenthMessage | discord-ai-translator.user.js:837-848 | With the target at position 10, a window of 6 and all messages carrying text, the context is positions 4 to 9. |
| Context.LatestWindow | discord-ai-translator.user.js:853-869 | At most `max(0, min(maxCount, n))` lines. With all messages carrying text, they are the lines of the last `min(maxCount, n)` messages. |
| Presets.Without | discord-ai-translator.user.js:967 | `filter` never adds presets. |
| Presets.WithoutMembers | discord-ai-translator.user.js:967 | `filter` keeps exactly the presets with another id (both directions). |
| Presets.WithoutNone | discord-ai-translator.user.js:967 | Filtering an id none of the presets has keeps them all. |
| Presets.Find | discord-ai-translator.user.js:988 | `find` returns the first preset with the id: it sits at a position before which no preset has that id. It returns nothing exactly when no preset has it. |
| Presets.Index | discord-ai-translator.user.js:982 | `Math.floor(roll * n)` is a valid position. |
| Presets.NeverRandom | discord-ai-translator.user.js:966-991 | The `random` entry is never the answer. The answer is a concrete preset or the built-in fallback. |
| Presets.AvoidsLast | discord-ai-translator.user.js:975-983 | For `random` with a recorded last id and another concrete preset available, the pick differs from the last one. |
| Presets.FixedStyle | discord-ai-translator.user.js:988-990 | A known id gives that preset, and an unknown id gives the first concrete preset. |
| Presets.CatalogPool | discord-ai-translator.user.js:41-87 | The catalog has eight concrete presets, `friendly_brief` first. |
| Presets.CatalogAvoidsLast | discord-ai-translator.user.js:966-991 | With the catalog, `random` never repeats the last preset. |
| Presets.CatalogUnknown | discord-ai-translator.user.js:966-991 | With the catalog, an unknown id resolves to `friendly_brief`. |
| Presets.PresetSelector.constructor | discord-ai-translator.user.js:116 | The selector starts over the catalog with no last id. |
| Presets.PresetSelector.ResolveReplyPreset | discord-ai-translator.user.js:966-991 | The answer is `Resolve` of the id, the last id and the roll, and `lastReplyPresetId` becomes its id. |
| Settings.Spread | discord-ai-translator.user.js:164-167 | Object spread copies an object's fields and an array's or string's positions, and nothing from other values. |
| Settings.Positions | discord-ai-translator.user.js:164-167 | Each index is keyed by its decimal rendering. |
| Settings.DecimalFresh | discord-ai-translator.user.js:164-167 | Distinct indices have distinct keys. |
| Settings.LoadSettingsMerge | discord-ai-translator.user.js:150-168 | The keys are those of the defaults and the stored object. A stored value wins, and every other default survives. |
| Settings.LoadSettingsNothing | discord-ai-translator.user.js:150-168 | Nothing stored, an unparsable value, every falsy stored value (`null`, `false`, `0`, `""`) and a stored boolean or number yield exactly the defaults. |
| Settings.StoredWithoutBound | discord-ai-translator.user.js:89-107 | Stored settings without a cache bound keep the default of 1000 entries. |
| Settings.ClampNumber | discord-ai-translator.user.js:552-558 | A non-number gives the fallback unclamped. A number ends within `[min, max]` when `min <= max`. |
| Settings.ClampCases | discord-ai-translator.user.js:552-558 | A number in range is kept, one below goes to `min` and one above to `max`. |
| Settings.ClampIdempotent | discord-ai-translator.user.js:552-558 | Clamping a clamped number changes nothing. |
| Settings.FormBounds | discord-ai-translator.user.js:538-544 | The context size is always within 1 to 20 and the request interval within 100 to 5000 ms, whatever the form holds. |
| Settings.BuildCacheKey | discord-ai-translator.user.js:1100-1102 | The key is the four parts and three separators. |
| Settings.EndpointIgnored | discord-ai-translator.user.js:645 | Two configurations with the same language and model give the same key, whatever their endpoints. |
| Settings.SplitAtColon | discord-ai-translator.user.js:1100-1102 | A colon-free head is recovered from `head:tail`. |
| Settings.CacheKeyInjective | discord-ai-translator.user.js:1100-1102 | For colon-free ids and language, equal keys mean the same message, language and model. |
| Scheduling.Scheduler.constructor | discord-ai-translator.user.js:112-118 | Start-up: nothing pending, nothing queued, `lastRequestAt` 0. |
| Scheduling.Scheduler.Schedule | discord-ai-translator.user.js:639-662 | Each outcome holds exactly when its check decides, in the source's order (text, line, cache, pending). A cache hit touches the key and shows the value. Only a new key is enqueued and added to the pending set. |
| Scheduling.Scheduler.WaitForRateLimit | discord-ai-translator.user.js:693-700 | The sleep is what is left of the interval, so the wait ends at `max(now, lastRequestAt + interval)`. The dispatch is recorded at least an interval after the previous one. |
| Scheduling.Scheduler.RunNext | discord-ai-translator.user.js:680-691 | The oldest task runs after the rate limit. Its key is released on every outcome, and the cache and translation line change only for a non-empty translation. A failure adds an error line. The queue keeps its invariants. |
| Scheduling.Scheduler.Perform | discord-ai-translator.user.js:663-673 | A queued body writes the cache and shows the line only for a non-empty normalized reply, and reports `翻译失败：` plus the message of a failed request. |
| Scheduling.Translated | discord-ai-translator.user.js:879-907 | The text a task keeps is sanitized. It is empty for a failure, and non-empty for a success whose sanitized reply is non-empty. |
| Scheduling.EnqueueKeeps | discord-ai-translator.user.js:661-662 | Queueing a task with a new key keeps the keys distinct and adds exactly that key. |
| Scheduling.DequeueKeeps | discord-ai-translator.user.js:675 | Taking the head off removes exactly its key from the queued keys. |
| Scheduling.DequeueKept | discord-ai-translator.user.js:680-691 | Running the head task keeps the finished-then-queued order equal to the submission order, and the pending set equal to the queued keys. |
| Scheduling.SpacedAppend | discord-ai-translator.user.js:693-700 | A dispatch at least its interval after the last one keeps the log spaced. |
| Scheduling.SpacedAccumulates | discord-ai-translator.user.js:693-700 | Request `i` goes out no earlier than the sum of the intervals up to it. |
| Scheduling.FixedIntervalSpacing | discord-ai-translator.user.js:693-700 | With a fixed interval, request `i` goes out no earlier than `(i + 1) * interval`. |

## Left out

- The DOM and UI are left out: the observer, message extraction, `attachTranslation`, the panel and composer insertion. The visible messages are an input of records, and "the node already has a translation line" is a boolean input.
- `attachTranslation` normalizes once more without an author. That second pass, which a line shown from the cache also goes through, is not modelled. The modelled line holds the stored text.
- `GM_xmlhttpRequest`, `GM_getValue` and `GM_setValue` are left out. The transport's reply is an input `Reply`, and storage is the `saved` field of the cache.
- `JSON.parse` is left out; its result is an `Option<Json>`. Cache values are strings, so a stored non-string value is not modelled.
- Timers are left out: the debounce of `persistCacheSoon` is a `saveScheduled` flag, and the sleep is the clock reading after it.
- Promise concurrency is left out. The queue runs one task to completion per `RunNext`, so interleavings with the reply path, which calls `waitForRateLimit` outside the queue, are not modelled. No spacing is claimed across both paths.
- The `队列异常` catch of `enqueue` is left out, because the modelled task body never throws past its own catch.
- `Math.random` is the `roll` input in `[0, 1)`. The reply path's random variation token is not modelled.
- Floats are left out: `temperature` is kept only as the default `0.2` among the settings, and `clampNumber` is over integers.
- The `iu` flags are modelled with ASCII case folding only. String lengths are in characters, not UTF-16 code units.
- The prompt text of `translateWithContext` and the whole reply path (`generateReplyFromContext`, `renderReplyPresetOptions`) are left out. The context a task collects feeds only the prompt, so `RunNext` does not take it.
- The `String(text \|\| '')` conversions are left out: every input is already a string.
- Completion.PartText: a `text` field that is truthy but not a string contributes nothing here, where JavaScript's `join` would render it with `String`.
- Settings.ClampNumber: only integer inputs are modelled; `Number(value)` parsing of the form's text is the `Option<int>` input.
- Normalization idempotence is not claimed, since the code removes one label per call. Only `sanitizeText` is proved idempotent.

## Findings

| source | as written | input that shows it | evidently intended | confidence | as-written member | corrected member |
|---|---|---|---|---|---|---|
| discord-ai-translator.user.js:188-192, 560-566 | `while (map.size > maxEntries)` deletes `map.keys().next().value`. On an empty map that is `delete(undefined)`, so for a negative limit the guard stays true and the loop never ends. | a stored `maxCacheEntries` of `-1`, with any cache | stop once the map is empty, keeping no entry | low, not executed (the form never sets the limit; only edited storage can make it negative) | LruCache.TrimAsWrittenNeverExits | LruCache.TrimToNegative |
