# TimeMark AI backend: the subtitle and chapter core in Dafny

This project models the part of the TimeMark AI backend that turns a YouTube
address into a stored transcript and a transcript into a stored chapter list:

- `extractVideoId` (src/utils/youtubeUtils.js). It is an ordered first-match
  search over eight regular expressions, each written out as an explicit
  matcher. The model keeps leftmost matching, greedy `.*` that stops at line
  terminators, and the id class `[^&\n?#]+`.
- The extraction handler `extractSubtitles` (src/controllers/subtitleController.js):
  - its single eleven-character id pattern (line 51), with the `i` flag folding
    ASCII letters only;
  - `preprocessSubtitles`, the loop that keeps one text line per time range;
  - the cache-by-natural-key skeleton over the `subtitles` table.
- `cleanSubtitleFormat` (src/utils/subtitleUtils.js), the loop that flattens a
  caption file into one line of prose.
- `createChapterPrompt` and the two chapter handlers of
  src/controllers/aiController.js:
  - `analyzeSubtitles` is a read-through cache keyed by subtitle id;
  - `regenerateChapters` always generates, then updates in place or inserts.
  They work over the `subtitle_analysis` table and the Gemini model.

Files and modules:

| file | module | what it holds |
|---|---|---|
| text.dfy | `Text` | JavaScript string primitives: `trim`, `replace(/\s+/g, ' ')`, `split('\n')`, `join`, `includes`, `/^\d+$/`, `.` and its line terminators, decimal rendering |
| youtube_utils.dfy | `YouTubeUtils` | `extractVideoId` and its properties |
| subtitle_controller.dfy | `SubtitleController` | `preprocessSubtitles` (a method with its loop), the line-51 id pattern, `extractSubtitles` |
| subtitle_utils.dfy | `SubtitleUtils` | `cleanSubtitleFormat` (a method with its loop) and its reference definition |
| storage.dfy | `Http`, `Storage` | handler replies; the two tables as a `Database` class with map fields; the generative model as a class |
| ai_controller.dfy | `AiController` | `parseInt(value, 10)`, `createChapterPrompt`, `analyzeSubtitles`, `regenerateChapters` |
| video_id_agreement.dfy | `VideoIdAgreement` | where the two id extractors agree and where they do not |

Models of the inputs:

- The handlers are methods over a `Database` object whose `subtitles` and
  `analyses` maps they change. Its invariant `Valid()` says:
  - every id is below its counter;
  - at most one transcript is stored per (video, user, language);
  - at most one analysis is stored per subtitle.
- Every handler keeps `Valid()`.
- The model's answer is the function `respond` of a `GenerativeModel` object,
  which records the prompts it received.
- JSON.parse is a `decode` parameter.
- The clock is a `now` parameter.
- youtube-dl's title and caption file are parameters of `ExtractSubtitles`.

Three facts about the code that a reader might not expect:

- The handler and the utility use different patterns:
  - the handler uses one combined pattern (line 51) whose id is exactly
    eleven characters;
  - the utility `extractVideoId` returns ids of any length, which may hold
    '/' (`YouTubeUtils.ShortLinkWithSlash`);
  - the handler never calls the utility.
  `VideoIdAgreement` shows the two agree on the canonical addresses but not
  on a repeated `v=` parameter or on a short id.
- A watch URL with two `v=` parameters resolves to the last value in the
  handler and to the first value in the utility.
- A decode failure of the model's answer is a 500 like any other error:
  "Failed to analyze subtitles" or "Failed to regenerate chapters".

## Model

| member | source | states |
|---|---|---|
| YouTubeUtils.ExtractVideoId | src/utils/youtubeUtils.js:1-19 | a returned id is non-empty and holds no '&', '?', '#' or newline |
| YouTubeUtils.ExtractVideoIdDecidedBy | src/utils/youtubeUtils.js:13-16 | the first pattern in list order that matches decides the result, whatever later patterns match |
| YouTubeUtils.ExtractVideoIdFound | src/utils/youtubeUtils.js:13-16 | a returned id is the capture of some pattern k, and every pattern before k failed |
| YouTubeUtils.ExtractVideoIdNull | src/utils/youtubeUtils.js:13-18 | null is returned exactly when none of the eight patterns matches |
| YouTubeUtils.ScanLeftmost | src/utils/youtubeUtils.js:14 | `url.match` reports the match at the leftmost start position that has one |
| YouTubeUtils.LinkMatchAt | src/utils/youtubeUtils.js:3 | the first pattern matches at a position exactly when `youtube.com/watch?v=` or `youtu.be/` stands there followed by an id character, and captures the maximal run of id characters |
| YouTubeUtils.PathMatchAt | src/utils/youtubeUtils.js:4-6 | the embed/, v/ and shorts/ patterns match exactly where their path stands followed by an id character, capturing the maximal run |
| YouTubeUtils.LastMarkerGreatest | src/utils/youtubeUtils.js:7-10 | when the greedy search succeeds, its result is what the greatest end position in the range gives, and no later position in the range is followed by the marker and an id |
| YouTubeUtils.QueryMatchAt | src/utils/youtubeUtils.js:7-10 | a query pattern matches at a position exactly when `youtube.com/watch?` stands there and some end of `.*` on the same line is followed by the marker and an id; the id returned is the one after the greatest such end (greedy `.*`) |
| YouTubeUtils.LinkDecides | src/utils/youtubeUtils.js:3 | at the first position holding a link marker with an id after it, that id is the result |
| YouTubeUtils.PathDecides | src/utils/youtubeUtils.js:4-6 | when no earlier pattern matched, the first embed/, v/ or shorts/ path with an id gives the result |
| YouTubeUtils.LateQueryPatternMatch | src/utils/youtubeUtils.js:8-10 | whenever the feature= or #t= pattern matches, the plain `watch\?.*v=` pattern matches too |
| YouTubeUtils.LateQueryPatternsNeverDecide | src/utils/youtubeUtils.js:8-10 | the last two patterns never change the result: the first six alone give it |
| YouTubeUtils.LinkAfterPlainPrefix | src/utils/youtubeUtils.js:3 | after a prefix without 'y', a watch?v= or youtu.be/ marker gives back any id followed by a non-id character or the end |
| YouTubeUtils.CanonicalWatchUrl | src/utils/youtubeUtils.js:3 | `https://www.youtube.com/watch?v=` + id gives back id for every id |
| YouTubeUtils.CanonicalShortUrl | src/utils/youtubeUtils.js:3 | `https://youtu.be/` + id gives back id for every id |
| YouTubeUtils.WatchUrlWithTime | src/utils/youtubeUtils.js:3 | example: on `https://www.youtube.com/watch?v=dQw4w9WgXcQ&t=42` the id stops at the '&' before `t=42` |
| YouTubeUtils.ShortLinkWithSlash | src/utils/youtubeUtils.js:3 | example: `youtu.be/a/b` gives the id `a/b`, which is not eleven characters long and holds a '/' |
| YouTubeUtils.OrderBeatsPosition | src/utils/youtubeUtils.js:3-16 | example: in `youtube.com/embed/abc youtu.be/xyz` the later youtu.be/ link wins over the embed/ path before it, because pattern order beats position |
| Text.Trim | src/controllers/subtitleController.js:15 | `trim()`: the result has no whitespace at either end, holds only characters of the input, is empty exactly when the input is all whitespace, and leaves trimmed input unchanged |
| Text.TrimIsSlice | src/controllers/subtitleController.js:15 | `trim()` removes exactly a run of leading and a run of trailing whitespace: the input is that leading run, the result, and that trailing run, in that order |
| Text.Collapse | src/controllers/subtitleController.js:29 | `replace(/\s+/g, ' ')`: the non-whitespace characters of the input are kept, in order; every whitespace character left is a single space standing alone; the result is empty only for empty input |
| Text.CollapseIdempotent | src/controllers/subtitleController.js:29 | collapsing already collapsed text changes nothing |
| Text.CollapseKeepsOutWords | src/controllers/subtitleController.js:29 | collapsing never creates a whitespace-free word such as "-->" that was not in its input |
| Text.Lines | src/controllers/subtitleController.js:9 | `split('\n')`: at least one piece, none holding a newline |
| Text.JoinLines | src/controllers/subtitleController.js:9 | joining the pieces of `split('\n')` with "\n" gives back the string |
| Text.LinesAppend | src/controllers/subtitleController.js:9 | splitting `a + "\n" + b` gives the pieces of a followed by those of b |
| SubtitleController.PreprocessSubtitles | src/controllers/subtitleController.js:7-39 | the loop returns the blocks `time\ntext` of the cues read by the line-by-line state machine, joined by blank lines |
| SubtitleController.CuesWellFormed | src/controllers/subtitleController.js:14-35 | every emitted cue pairs a trimmed "-->" line with a non-empty, trimmed, single-spaced text line that is neither a number nor a time range |
| SubtitleController.CuesBound | src/controllers/subtitleController.js:21-34 | there are never more cues than time-range lines (plus one pending at the start) |
| SubtitleController.NoTimeRangeNoTranscript | src/controllers/subtitleController.js:18-38 | a file with no "-->" line yields the empty transcript |
| SubtitleController.TimeRangeStep | src/controllers/subtitleController.js:21-24 | a time-range line emits nothing and becomes the pending time range |
| SubtitleController.CaptionStep | src/controllers/subtitleController.js:27-35 | a caption line emits its collapsed text with the pending time range, and nothing when none is pending |
| SubtitleController.ContinuationLineDropped | src/controllers/subtitleController.js:30-34 | only the first text line after a time range is kept; the line after it is dropped |
| SubtitleController.TimeRangeOverwritten | src/controllers/subtitleController.js:21-24 | a time range followed by another time range is overwritten and never emitted |
| SubtitleController.CuesAppend | src/controllers/subtitleController.js:14-36 | the cues of two consecutive runs of lines are those of the first run, then those of the second from the state the first left |
| SubtitleController.RenderedCuesReparse | src/controllers/subtitleController.js:31-38 | reading back the rendered blocks of well-formed cues gives the same cues |
| SubtitleController.PreprocessedIdempotent | src/controllers/subtitleController.js:7-39 | preprocessing a transcript that preprocessing produced changes nothing |
| SubtitleController.LowerAscii | src/controllers/subtitleController.js:51 | for this pattern's ASCII literals, JavaScript's case-insensitive match is exactly ASCII folding: each of A-Z maps to the lower-case letter at the same place in the alphabet and every other character, non-ASCII included, is left as it is; folding never changes whether a character is whitespace |
| SubtitleController.ControllerVideoId | src/controllers/subtitleController.js:51 | a captured id is exactly eleven characters, none of them `"`, '&', '?', '/' or whitespace |
| SubtitleController.ControllerVideoIdAt | src/controllers/subtitleController.js:51 | the leftmost position where the pattern matches decides the id |
| SubtitleController.ControllerVideoIdNone | src/controllers/subtitleController.js:51-55 | no id (the 400 "Invalid YouTube URL" path) exactly when no position starts a match |
| SubtitleController.QueryCaptureSkip | src/controllers/subtitleController.js:51 | the greedy `.*[?&]v=` passes over positions with no usable parameter |
| SubtitleController.LongFormQuery | src/controllers/subtitleController.js:51 | after `youtube.com/` and a path with no slash that starts with neither v nor e, the id is the one the greedy query search finds |
| SubtitleController.ControllerCanonicalWatch | src/controllers/subtitleController.js:51 | `https://www.youtube.com/watch?v=` + an eleven-character id gives back that id |
| SubtitleController.ControllerLastQueryWins | src/controllers/subtitleController.js:51 | with two `v=` parameters, the greedy `.*` makes the last one win |
| SubtitleController.ControllerCanonicalShort | src/controllers/subtitleController.js:51 | `https://youtu.be/` + id captures the first eleven characters, whatever follows |
| SubtitleController.ControllerRejectsShortId | src/controllers/subtitleController.js:51-55 | a youtu.be/ link with any id of fewer than eleven characters gives no id |
| SubtitleController.Language | src/controllers/subtitleController.js:44 | the query's lang, or "en" when it is absent or empty; never empty |
| SubtitleController.ExtractSubtitles | src/controllers/subtitleController.js:41-165 | 400 without a url or without a matching id; an existing row for (video, user, language) is returned with nothing written; 404 with nothing written when no caption text came back; otherwise exactly one new row is inserted, holding the preprocessed text, and it becomes the only row for its key |
| SubtitleUtils.CleanSubtitleFormat | src/utils/subtitleUtils.js:1-27 | the loop returns the caption lines of the file, trimmed and joined by single spaces in file order, with whitespace runs collapsed |
| SubtitleUtils.CaptionTexts | src/utils/subtitleUtils.js:7-23 | the kept lines are never empty, never a bare number and never hold "-->" |
| SubtitleUtils.CleanedJoinsCaptionLines | src/utils/subtitleUtils.js:7-26 | trimming the running text with its trailing spaces gives the caption lines joined by single spaces |
| SubtitleUtils.CleanedEmpty | src/utils/subtitleUtils.js:10-26 | the result is empty exactly when the file holds no caption line |
| SubtitleUtils.CleanedIsOneLine | src/utils/subtitleUtils.js:26 | the result is one trimmed line with single spaces, holds no "-->", and is never a bare number |
| SubtitleUtils.CleanIdempotent | src/utils/subtitleUtils.js:1-27 | cleaning cleaned text changes nothing |
| SubtitleUtils.CleanedSingleLine | src/utils/subtitleUtils.js:8-21 | a one-line file gives that line collapsed if it is a caption line, and "" otherwise |
| SubtitleUtils.JunkLineIgnored | src/utils/subtitleUtils.js:10-17 | inserting a blank, numbering or timing line anywhere changes nothing |
| SubtitleUtils.CleanedConcat | src/utils/subtitleUtils.js:20-26 | the text of two parts of a file is the text of the first, one space, then the text of the second |
| SubtitleUtils.CollapsedJoinConcat | src/utils/subtitleUtils.js:20-26 | collapsing the space-joined caption lines of two non-empty runs gives the two collapsed runs joined by one space |
| AiController.ParseInt | src/controllers/aiController.js:20 | `parseInt(value, 10)` gives a number exactly when digits follow the leading whitespace and an optional sign |
| AiController.ParseIntOfNat | src/controllers/aiController.js:20 | a number's decimal rendering, followed by any non-digit text, reads back as that number |
| AiController.DigitsThen | src/controllers/aiController.js:20 | a non-empty run of digits followed by a non-digit reads back as the decimal value of the digits |
| AiController.ParseIntSkipsWhitespace | src/controllers/aiController.js:20 | leading whitespace does not change what parseInt reads |
| AiController.ParseIntNegative | src/controllers/aiController.js:20 | for any text that starts with a digit (leading zeros and trailing non-digits such as "12px" included), a leading minus sign negates the number parseInt reads |
| AiController.MinusDigits | src/controllers/aiController.js:20 | a minus sign followed by a non-empty run of digits reads back as the negated decimal value |
| AiController.RequestedCount | src/controllers/aiController.js:20-21 | a count is honoured exactly when parseInt gives a number and it is positive, and the honoured count is that number |
| AiController.PromptWithCount | src/controllers/aiController.js:20-24 | a positive parsed count puts "Create exactly n logical chapters." and "- Create exactly n chapters" in the prompt |
| AiController.PromptByDefault | src/controllers/aiController.js:16-21 | an absent, non-numeric, zero or negative count keeps the 5-10 instruction and "- Maximum 10 chapters" |
| AiController.PromptOpensWithRequest | src/controllers/aiController.js:26 | whatever the count, the prompt opens with the fixed request sentence |
| AiController.PromptHoldsFormat | src/controllers/aiController.js:28-39 | whatever the count, the prompt holds the format text, its JSON example and the fixed guidelines |
| AiController.PromptEndsWithTranscript | src/controllers/aiController.js:42-44 | the prompt ends with "Here's the transcript:", a blank line and the transcript verbatim |
| AiController.PromptDeterminesTranscript | src/controllers/aiController.js:26-44 | equal prompts for the same count come from equal transcripts |
| AiController.AnalyzeSubtitles | src/controllers/aiController.js:47-140 | 400 without an id; 404 when the subtitle is missing or not the caller's; a stored analysis is returned with no generation and no write; otherwise the prompt is sent once, a failed call or decode gives 500 with nothing written, and success inserts one row with created_at only, which becomes the subtitle's only analysis |
| AiController.RegenerateChapters | src/controllers/aiController.js:215-320 | the 400 and 404 paths as for analysis; otherwise it always generates; failure gives 500 with nothing written; success overwrites the chapters and updated_at of the existing row in place, or inserts a row with both timestamps, and that row is then the subtitle's only analysis |
| AiController.RegenerateTwice | src/controllers/aiController.js:259-303 | two successful regenerations with possibly different chapter counts leave one analysis row: the first call's row, holding the chapters the model answered to the second call's prompt and the second call's updated_at; each reply carries the chapters of its own prompt |
| Storage.Database.FindSubtitle | src/controllers/subtitleController.js:60-65 | finds a row for (video, user, language) exactly when one is stored |
| Storage.Database.FindAnalysis | src/controllers/aiController.js:75-79 | finds a row for the subtitle id exactly when one is stored |
| Storage.Database.InsertSubtitle | src/controllers/subtitleController.js:138-150 | adds the row under a fresh id, changes nothing else, and keeps the invariant |
| Storage.Database.InsertAnalysis | src/controllers/aiController.js:109-118 | adds the row under a fresh id, changes nothing else, and keeps the invariant |
| Storage.Database.UpdateAnalysis | src/controllers/aiController.js:269-277 | replaces chapters and updated_at of one row and changes nothing else |
| Storage.GenerativeModel.GenerateContent | src/controllers/aiController.js:96-103 | the answer text is the model's response to the prompt, and the prompt is recorded |
| VideoIdAgreement.AgreeOnWatchUrl | src/utils/youtubeUtils.js:3 | the utility and the handler's line-51 pattern read the same id from the canonical watch address |
| VideoIdAgreement.AgreeOnShortUrl | src/utils/youtubeUtils.js:3 | the utility and the handler's pattern read the same id from the canonical short address |
| VideoIdAgreement.DisagreeOnRepeatedParameter | src/utils/youtubeUtils.js:3 | with two `v=` parameters the utility takes the first value and the handler the last |
| VideoIdAgreement.DisagreeOnShortId | src/utils/youtubeUtils.js:3 | every youtu.be/ id of id characters shorter than eleven is accepted by the utility and refused by the handler |

## Left out

- youtube-dl, the file system and the temp directory (subtitleController.js:79-128) are external. The video title and the caption text are parameters of `ExtractSubtitles`. The .vtt-then-.srt fallback and the two read failures become one `raw: Option<string>`.
- Supabase errors are not modelled, because the storage is an in-memory map that does not fail. This covers checkError, saveError, an empty insert result, fetchError, storeError, updateError and insertError, each of which is a 500 reply.
- The outer catch of `extractSubtitles` (500 "Failed to extract subtitles") is not modelled, because exceptions from youtube-dl are out of scope. The handlers' own catch paths for the model call and JSON.parse are modelled.
- `.single()` returns an error when no row or several rows match. The model follows the explicit `if (!subtitles)` 404 branch for a missing or foreign row. It relies on the invariant of at most one analysis per subtitle where the code relies on the row count.
- SubtitleController.ExtractSubtitles: for an existing key it returns some stored id for that key. The code returns `existingSubtitles[0]` in database order, and the model does not know that order. While the invariant holds there is exactly one such id.
- Each handler is modelled as one atomic step, and interleaved requests are not modelled. In the code, extractSubtitles awaits youtube-dl between its existence check (subtitleController.js:60-77) and its insert (138-150), and analyzeSubtitles awaits the model between its lookup (aiController.js:75-79) and its insert (109-118). Two concurrent requests can both pass the check and both insert, after which `.single()` fails and a later analysis inserts yet another row. The at-most-one-row invariant (`Storage.Database.Valid`) and the "only row for its key" promises of `ExtractSubtitles`, `AnalyzeSubtitles`, `RegenerateChapters` and `RegenerateTwice` hold only for requests run one at a time.
- Row ids come from a counter per table, because the database assigns them.
- Clocks are a `now` parameter. "updated_at advances" cannot be stated without a clock model.
- The Gemini client, its model name and generation config are external. The model's answer is a function from prompt to optional text; None stands for a call that throws.
- JSON.parse is a `decode` parameter, because the JSON grammar is out of scope. Chapters are modelled as a list of (timestamp, title) records. An answer that parses to any other JSON value (an object, a number, entries with extra or missing fields), which the code stores and returns unchecked, is not modelled.
- Route parameters and bodies are modelled as strings. `subtitleId` is `Option<nat>`, so a non-numeric id, which Supabase would reject, is not modelled. `chapterCount` is modelled by its string form, so a JSON number n is its decimal rendering (`AiController.ParseIntOfNat`).
- `${count}` for counts of 10^21 and above prints in exponent form in JavaScript. `CountInstruction` renders every count in plain decimal, and parseInt's loss of precision beyond 2^53 is not modelled.
- Strings are sequences of code points. JavaScript's UTF-16 code units and surrogate pairs are not modelled. `\s` is the ECMAScript white-space and line-terminator set.
- Authentication, routes, middleware, configuration and logging are outside the modelled core. So are the other handlers (listVideos, listAnalyses, getAnalysis, and the auth handlers).
- The recorded prompt list of `GenerativeModel` is ghost and exists only for the contracts.
