# Brainrot Bites: a verified model of its content pipeline and player

Brainrot Bites turns study notes into short vertical "clips". A clip is a piece of text shown
over a looping background video. This project models the checkable logic behind that in Dafny
and proves what that logic promises:

- **Local clip generation** (`src/lib/parseContent.ts`), modules `Text`, `ParseContent` and `Clips`:
  - whitespace normalisation;
  - sentence splitting after `.`/`!`/`?` plus whitespace, and at every literal `|`;
  - greedy chunking of sentences under a word budget of 20, 40 or 80 words;
  - mapping of chunks to `VideoClip` records;
  - the Fisher–Yates shuffle that renumbers `order`.
- **Generation through the language model, browser side** (`src/lib/summarizeContent.ts`), modules
  `SummarizeClient` and `SummaryParsing`:
  - the target-count clamp;
  - the three-attempt retry loop over the model's replies;
  - fence stripping with a parse that falls back to one summary per line;
  - clip mapping.
- **Generation through the language model, server side**
  (`supabase/functions/summarize-content/index.ts`), module `SummarizeServer`:
  - the order in which the request is validated;
  - the recursive `fetchWithRetry` with its doubling backoff;
  - reading the model's response into `{summaries}`.
- **The playback controller** (`src/components/VideoPlayer.tsx`), module `VideoPlayer`:
  - pure transition functions over `currentIndex`, `isPlaying`, `isMuted` and `progress`;
  - a `Player` class whose methods are proved equal to those functions.
- **The stats bar** (`src/components/StatsBar.tsx`), module `StatsBar`: seconds rounded up to
  whole minutes, with `Numbers.CeilDiv`.
- **The word/line mapper** (`OBrainRot-master/example.py`), module `WordMapper`:
  - Python's `str.strip` and `str.split()` over Python's whitespace set;
  - the nested loop that emits `(word, line)` pairs, as a method with two loops proved against the
    function `Mapping`.

The record types follow `src/types/index.ts`: `Clips.VideoClip` holds `id`, `content`, `duration`,
`backgroundUrl` and `order`, and `Clips.VideoDuration` is the subset type `{15, 30, 60}`.

Nondeterminism and the outside world are parameters:
- `random: nat -> real` is the `k`-th value of `Math.random()`, each in `[0, 1)`.
- `clock: nat -> nat` is the `k`-th value of `Date.now()`.
- `reply: nat -> Reply` is the outcome of the client's `k`-th `generateContent` call: a text, or an
  error with its message.
- `fetch: nat -> FetchOutcome` is the outcome of the server's `k`-th `fetch`: a status with the
  decoded body, or a thrown error.
- `parse: string -> Option<seq<string>>` stands for `JSON.parse` followed by the `Array.isArray`
  check. `None` means the parse threw or gave something other than an array.
- Waits (`setTimeout`, `delay`) are recorded as the list of milliseconds slept.

Where the repository's design description and its code differ, the model follows the code:
- At the last clip, a tick at full progress sets progress back to 0 and the clip plays again. It
  does not hold at 100 (`VideoPlayer.LastClipRestarts`).
- The code has no narration and no word-by-word reveal. `isMuted` only switches an icon.
- Shuffling does not reset the player's index. `VideoPlayer.Player` keeps its clip list fixed.
- Both fallbacks split the raw reply into lines, fences included, not the cleaned reply
  (`SummaryParsing.ParseSummaries`).
- On the server, a 429 after the last retry is returned, not thrown. It then becomes
  `Gemini API Error: 429`. A recursive call's rejection is not caught by the caller's `catch`,
  because `return fetchWithRetry(...)` is not awaited. So no level retries more than once.
- A swipe goes to the next clip when `touchStartY - touchEndY > 50`, that is when the finger
  moves up the screen, and to the previous clip when it moves down by more than 50 pixels
  (`VideoPlayer.SwipeThreshold`). The design description has a downward swipe go to the next clip.
- The sentence filter and both fallback filters keep entries longer than 10 characters, so an
  entry of exactly 10 characters is dropped (`ParseContent.SplitIntoSentences`,
  `SummaryParsing.Fallback`). The design description drops only entries under 10.

## Model

| member | source | states |
|---|---|---|
| Text.TrimStart | src/lib/parseContent.ts:24 | the result is no longer than its input and does not start with JavaScript whitespace; it is shorter when the input starts with whitespace |
| Text.TrimEnd | src/lib/parseContent.ts:24 | the result does not end with whitespace and keeps the input's first character |
| Text.Trim | src/lib/parseContent.ts:24 | `String.prototype.trim`: the result is trimmed at both ends and no longer than its input |
| Text.TrimInfix | src/lib/parseContent.ts:24 | trimming removes only whitespace: the input is whitespace, then the trimmed text, then whitespace |
| Text.TrimTrimmed | src/lib/parseContent.ts:24 | trimming an already trimmed string changes nothing |
| Text.TrimKeepsAbsent | src/lib/parseContent.ts:24 | trimming introduces no character that was not there |
| Text.TrimStartSpaces | src/lib/parseContent.ts:22 | a whitespace run is removed completely, up to the next non-space character |
| Text.WithoutSpace | src/lib/parseContent.ts:49-52 | the non-whitespace characters of a string, in order: the content that normalisation must keep |
| Text.WithoutSpaceAppend | src/lib/parseContent.ts:49-52 | the non-whitespace content of a concatenation is the concatenation of the contents |
| Text.Split | src/lib/parseContent.ts:23 | `split` on one character gives at least one part, and no part holds the separator |
| Text.SplitLength | src/lib/parseContent.ts:34 | the number of parts is the number of separators plus one |
| Text.JoinSplit | src/lib/parseContent.ts:23 | joining the parts again with the separator gives back the string |
| Text.SplitJoin | src/lib/parseContent.ts:23 | splitting a join of separator-free parts gives back the parts |
| Text.SplitNoSeparator | src/lib/parseContent.ts:23 | a string without the separator splits into itself |
| Text.SplitAppend | src/lib/parseContent.ts:23 | splitting at a separator that joins two strings is splitting each one |
| Text.JoinAppend | src/lib/parseContent.ts:37 | joining one more part adds the separator and the part |
| Text.TrimAll | src/lib/parseContent.ts:24 | after the `map(s => s.trim())` step every piece is trimmed at both ends and no longer than the part it came from |
| Text.KeepLonger | src/lib/parseContent.ts:25 | the `filter(s => s.length > 10)` step: every kept element is longer than 10, and none is added |
| Text.TrimAllAppend | src/lib/parseContent.ts:24 | trimming distributes over concatenation |
| Text.KeepLongerAppend | src/lib/parseContent.ts:25 | filtering distributes over concatenation |
| Text.Decimal | src/lib/parseContent.ts:58 | the decimal text of a number in a template literal: non-empty and all digits |
| Text.DecimalInjective | src/lib/parseContent.ts:58 | different numbers have different decimal texts |
| Numbers.CeilDiv | src/components/StatsBar.tsx:9 | `Math.ceil(n / d)` on naturals: the quotient covers `n`, and one less would not |
| Numbers.CeilDivLeast | src/components/StatsBar.tsx:9 | the rounded-up quotient is the least multiplier covering `n` |
| Numbers.CeilDivExact | src/components/StatsBar.tsx:9 | an exact multiple divides without rounding |
| Numbers.CeilDivMonotone | src/components/StatsBar.tsx:9 | a larger dividend never gives a smaller rounded-up quotient |
| Clips.RandomIndex | src/lib/parseContent.ts:16-18 | `Math.floor(r * n)` with `0 <= r < 1` is a valid index below `n` |
| Clips.ClipIdInjective | src/lib/parseContent.ts:58 | `clip-<time>-<index>` determines both its timestamp and its index |
| Clips.MakeClips | src/lib/parseContent.ts:57-63 | one clip per content, in order: `order == i`, content `i`, the given duration, a background from the pool, and id `clip-<Date.now()>-<i>` |
| Clips.ClipIdsDistinct | src/lib/parseContent.ts:58 | the clips of one mapping have pairwise distinct ids, whatever the clock reads |
| Clips.SwapExchanges | src/lib/parseContent.ts:70 | the destructuring swap exchanges positions `i` and `j`, keeps every other position and keeps the multiset |
| Clips.ShuffledPermutes | src/lib/parseContent.ts:68-71 | the swap loop from any start index leaves a permutation of the array |
| Clips.PayloadsSwap | src/lib/parseContent.ts:70 | swapping clips swaps their `id`/`content`/`duration`/`backgroundUrl` payloads |
| Clips.ShuffledKeepsPayloads | src/lib/parseContent.ts:68-71 | the loop keeps the multiset of clip payloads |
| Clips.ShuffleIsRenumberedPermutation | src/lib/parseContent.ts:66-73 | `shuffleClips` keeps the length, sets each `order` to its position, and permutes the payloads |
| Clips.ShuffledStep | src/lib/parseContent.ts:68-71 | one more iteration, with `j = floor(random * (i + 1))`, is one more swap |
| Clips.ShuffleClips | src/lib/parseContent.ts:66-73 | the array loop equals `Shuffle`: same length, `order == i`, the same multiset of payloads, (the input is a sequence, so it is not mutated) |
| ParseContent.SkipNewlines | src/lib/parseContent.ts:50 | a run of newlines is consumed: the rest does not start with one |
| ParseContent.ReplaceNewlineRunsFacts | src/lib/parseContent.ts:50 | `replace(/\n+/g, ' ')` leaves no newline and keeps the non-whitespace content |
| ParseContent.CollapseSpaceRunsFacts | src/lib/parseContent.ts:51 | `replace(/\s+/g, ' ')` leaves single spaces only, no newline, and the same non-whitespace content |
| ParseContent.CleanTextIsNormalized | src/lib/parseContent.ts:49-52 | the cleaned text has no newline, no two adjacent whitespace characters, no whitespace at either end, and keeps all non-whitespace content in order |
| ParseContent.CollapseAfterVisible | src/lib/parseContent.ts:51 | a whitespace run cannot reach across a visible character, so `replace(/\s+/g, ' ')` works piecewise there |
| ParseContent.CollapseSpaceRun | src/lib/parseContent.ts:51 | every maximal whitespace run becomes exactly one space between the text before and the text after it |
| ParseContent.ReplaceNewlineRunsAppend | src/lib/parseContent.ts:50 | `replace(/\n+/g, ' ')` works piecewise before a text that does not start with a newline |
| ParseContent.CleanTextSeparates | src/lib/parseContent.ts:49-52 | two words separated by any whitespace run, newlines included, are cleaned to the two words separated by one space |
| ParseContent.KeepLongerKeepsTrimmedPieces | src/lib/parseContent.ts:24-25 | filtering keeps pieces that are trimmed and free of the pipe character |
| ParseContent.SentencesOfMarked | src/lib/parseContent.ts:23-25 | every piece from the split at pipes, trim and `length > 10` filter is trimmed, longer than 10 and free of the pipe character |
| ParseContent.SplitIntoSentences | src/lib/parseContent.ts:20-26 | every sentence is trimmed, longer than 10 characters and free of the pipe character |
| ParseContent.MarkBreaksAppend | src/lib/parseContent.ts:22 | the replace works piecewise across a boundary that does not start with whitespace |
| ParseContent.SentencesOfMarkedAppend | src/lib/parseContent.ts:23-25 | a pipe character in the marked text separates two independent lists of sentences |
| ParseContent.MarkBreaksAtPipe | src/lib/parseContent.ts:22 | a literal pipe character passes the replace unchanged |
| ParseContent.SentencesSplitAtPipe | src/lib/parseContent.ts:20-26 | the text splits at every literal pipe character: the sentences of `a`, a pipe, then `b` are those of `a` then those of `b` |
| ParseContent.MarkBreaksAtMarkSpace | src/lib/parseContent.ts:22 | a mark followed by a whitespace run becomes the mark and a pipe character, the run dropped |
| ParseContent.SentencesSplitAfterMark | src/lib/parseContent.ts:20-26 | the text splits after `.`/`!`/`?` followed by whitespace, and the mark stays with the fragment before |
| ParseContent.NoBreakNoSplit | src/lib/parseContent.ts:20-26 | without a pipe character and without a mark followed by whitespace, the text is one sentence if its trim is longer than 10 and none otherwise |
| ParseContent.MarkBreaksIdentity | src/lib/parseContent.ts:22 | the replace changes nothing when no mark is followed by whitespace |
| ParseContent.WordsPerChunk | src/lib/parseContent.ts:29 | 20 words for 15 s, 40 for 30 s (four words per three seconds), 80 for every other duration |
| ParseContent.WordCountAppend | src/lib/parseContent.ts:34 | the space-split count of `a + ' ' + b` is the two counts added, so an empty chunk counts as one word |
| ParseContent.ChunkPrefixInvariant | src/lib/parseContent.ts:33-42 | after any prefix of the sentences the loop state keeps its invariant: emitted chunks non-empty and in budget unless a single sentence, pending chunk consistent, greedy between neighbours |
| ParseContent.ChunkMergeKeepsInvariant | src/lib/parseContent.ts:36-37 | merging a sentence that fits the budget keeps the invariant |
| ParseContent.ChunkEmitKeepsInvariant | src/lib/parseContent.ts:38-41 | emitting the pending chunk and starting a new one keeps the invariant |
| ParseContent.ChunkPrefixJoin | src/lib/parseContent.ts:33-44 | the emitted chunks plus the pending one, joined by spaces, are the processed sentences joined by spaces |
| ParseContent.ChunksNonEmptyAndFewer | src/lib/parseContent.ts:39-45 | every chunk is non-empty, there are no more chunks than sentences, and no sentences give no chunks |
| ParseContent.ChunksWithinBudget | src/lib/parseContent.ts:34-40 | each chunk is within the word budget unless it is one sentence on its own |
| ParseContent.ChunksAreGreedy | src/lib/parseContent.ts:34-40 | two neighbouring chunks joined would exceed the budget |
| ParseContent.ChunksJoin | src/lib/parseContent.ts:33-45 | no non-empty sentence is lost, duplicated or reordered: the chunks joined by spaces equal the sentences joined by spaces |
| ParseContent.ChunkContent | src/lib/parseContent.ts:28-46 | the `for` loop computes `Chunks`, and its result is non-empty per chunk, no longer than the input, within budget unless a single sentence, and greedy |
| ParseContent.ParseTextToClips | src/lib/parseContent.ts:48-64 | clip `i` carries chunk `i` of the cleaned text's sentences, so there are no more clips than sentences and their contents joined equal the sentences joined; clip `i` has `order == i`, the duration, non-empty content within the word budget unless it is one sentence, one of the four backgrounds and id `clip-<now>-<i>` |
| SummaryParsing.TargetChunkCount | src/lib/summarizeContent.ts:30 | the clamp is in [5, 50]: 5 up to 2500 characters, 50 above 24500, and `ceil(len / 500)` between |
| SummaryParsing.TargetChunkCountInRange | supabase/functions/summarize-content/index.ts:37 | when `ceil(len / 500)` is in [5, 50] the clamp is exactly that value |
| SummaryParsing.StripFences | src/lib/summarizeContent.ts:73 | removing the fences never lengthens the reply |
| SummaryParsing.StripFencesKeep | src/lib/summarizeContent.ts:73 | a character that starts no fence is kept |
| SummaryParsing.CleanContent | src/lib/summarizeContent.ts:73 | the cleaned reply is trimmed |
| SummaryParsing.StripFencesPlain | src/lib/summarizeContent.ts:73 | a reply without backticks is left as it is |
| SummaryParsing.StripFencesPrefix | src/lib/summarizeContent.ts:73 | backtick-free text before a fence passes through unchanged |
| SummaryParsing.FencedReply | src/lib/summarizeContent.ts:73 | a reply wrapped in a `json` fence, newlines included, cleans to its trimmed body |
| SummaryParsing.StripQuoteDash | src/lib/summarizeContent.ts:85 | the quote/dash `replace` removes at most one leading and one trailing quote or dash, and nothing else |
| SummaryParsing.CleanLines | src/lib/summarizeContent.ts:84-85 | after the quote/dash strip and `trim` every entry is trimmed at both ends and no longer than its line |
| SummaryParsing.Fallback | src/lib/summarizeContent.ts:84-86 | every fallback summary is trimmed and longer than 10 characters; computing it cannot fail |
| SummaryParsing.KeepLongerTrimmed | src/lib/summarizeContent.ts:86 | filtering keeps trimmed entries trimmed |
| SummaryParsing.FallbackAppend | src/lib/summarizeContent.ts:84-86 | the fallback goes line by line, in line order |
| SummaryParsing.FallbackLine | src/lib/summarizeContent.ts:84-86 | a single line gives its cleaned text if that is longer than 10 characters, and nothing otherwise |
| SummaryParsing.QuoteDashExample | src/lib/summarizeContent.ts:85 | only one quote/dash is removed at each end, and a lone quote matches only once |
| SummaryParsing.ParseSummaries | src/lib/summarizeContent.ts:71-87 | a failed parse of the cleaned reply gives the fallback of the raw reply; a successful one gives the parsed strings |
| SummarizeClient.WaitDoubles | src/lib/summarizeContent.ts:56 | each wait `2^attempt * 10000` is twice the one before |
| SummarizeClient.Waits | src/lib/summarizeContent.ts:55-58 | the calls after the first are each preceded by one wait |
| SummarizeClient.WaitsOfThree | src/lib/summarizeContent.ts:55-58 | the waits before the 2nd and 3rd calls are 20000 ms and 40000 ms |
| SummarizeClient.SummaryClips | src/lib/summarizeContent.ts:91-97 | one clip per summary: `order == i`, content the trimmed summary, the duration, a background from the list, id `clip-<now>-<i>`; no summaries give no clips |
| SummarizeClient.RetriedRun | src/lib/summarizeContent.ts:98-106 | the run of leading rate-limited replies never exceeds the attempts left |
| SummarizeClient.RetriedRunStops | src/lib/summarizeContent.ts:98-110 | the run ends at the first reply that is not rate-limited |
| SummarizeClient.RetriedRunFull | src/lib/summarizeContent.ts:53-111 | when every attempt is rate-limited the run takes all of them |
| SummarizeClient.RetriedRunPrefix | src/lib/summarizeContent.ts:103-105 | every reply inside the run was rate-limited |
| SummarizeClient.KeyMissingNoCall | src/lib/summarizeContent.ts:18-22 | a missing key throws its message before any model call or wait |
| SummarizeClient.CallsAndWaits | src/lib/summarizeContent.ts:53-58 | at most 3 calls; every call but the last was rate-limited; the waits are the schedule for that many calls |
| SummarizeClient.SettlesAt | src/lib/summarizeContent.ts:53-110 | the first reply that is not rate-limited settles the run after exactly that many calls |
| SummarizeClient.OtherErrorStops | src/lib/summarizeContent.ts:98-110 | an error without `429` or `quota` is rethrown at once, with no further call |
| SummarizeClient.EmptyReplyStops | src/lib/summarizeContent.ts:66-68 | an empty reply throws `No content generated from Gemini`, which is not retried |
| SummarizeClient.ThreeRateLimits | src/lib/summarizeContent.ts:53-114 | three rate-limited attempts throw `Failed after 3 attempts. Last error: <last message>` after waits of 20000 and 40000 ms |
| SummarizeClient.TwoRateLimitsThenReply | src/lib/summarizeContent.ts:53-97 | two rate limits and then a reply give that reply's clips after exactly 3 calls |
| SummarizeClient.SummarizeTextToClips | src/lib/summarizeContent.ts:14-115 | the retry `for` loop, with its `attempt`/`lastError` state, computes `Summarize`: the same outcome, calls and waits |
| SummarizeServer.FetchWithRetry | supabase/functions/summarize-content/index.ts:61-84 | between 1 and `retries + 1` fetches, one wait before each fetch after the first |
| SummarizeServer.FetchWaitsDouble | supabase/functions/summarize-content/index.ts:65-80 | wait `i` is `backoff * 2^i` |
| SummarizeServer.FetchSettlesAt | supabase/functions/summarize-content/index.ts:61-84 | after `n` retryable outcomes, the first final one (or the last allowed) ends the run after `n + 1` fetches and is its result |
| SummarizeServer.FetchRetriedBefore | supabase/functions/summarize-content/index.ts:61-84 | conversely, every fetch but the last was a 429 or a thrown error, and the last is final unless the retries ran out |
| SummarizeServer.MissingTextRefused | supabase/functions/summarize-content/index.ts:19-24 | a request without text gets 400 `Text content is required` before the key check and before any fetch |
| SummarizeServer.MissingKeyRefused | supabase/functions/summarize-content/index.ts:26-33 | with text but no key the answer is 500 `AI service not configured`, with no fetch |
| SummarizeServer.FetchBudget | supabase/functions/summarize-content/index.ts:61-100 | at most 4 fetches, with waits of 1000, 2000 and 4000 ms before the 2nd, 3rd and 4th |
| SummarizeServer.FirstResponseFinal | supabase/functions/summarize-content/index.ts:65-75 | a first response other than 429 is returned at once; its status decides the answer |
| SummarizeServer.RateLimitedThroughout | supabase/functions/summarize-content/index.ts:65-109 | four 429s: the last is returned, not thrown, and answered with 500 `Gemini API Error: 429` after 4 fetches |
| SummarizeServer.DecimalOf429 | supabase/functions/summarize-content/index.ts:106 | the status appears in the message as `429` |
| SummarizeServer.NetworkDownThroughout | supabase/functions/summarize-content/index.ts:76-153 | four thrown fetches: the last error reaches the outer handler, answered 500 with its message, after 4 fetches |
| SummarizeServer.AnsweredWithSummaries | supabase/functions/summarize-content/index.ts:111-147 | a 2xx response with text, after `n` retried outcomes, is answered with the parsed or fallback summaries and the default status |
| SummarizeServer.NoTextAnswered | supabase/functions/summarize-content/index.ts:111-120 | a 2xx response without `candidates[0].content.parts[0].text` is answered 500 `No content generated` |
| StatsBar.TotalMinutes | src/components/StatsBar.tsx:9 | the minutes cover all the clip seconds (`m * 60 >= clips * duration`) and are the least that do |
| StatsBar.NoClipsNoMinutes | src/components/StatsBar.tsx:9 | no clips show 0 minutes |
| StatsBar.ZeroMinutesOnlyWhenEmpty | src/components/StatsBar.tsx:9 | 0 minutes only when there are no seconds to watch |
| StatsBar.WholeMinutes | src/components/StatsBar.tsx:9 | an exact multiple of 60 seconds shows `seconds / 60` |
| StatsBar.TotalMinutesMonotone | src/components/StatsBar.tsx:9 | more clips or longer clips never show fewer minutes |
| VideoPlayer.Next | src/components/VideoPlayer.tsx:23-28 | `goToNext` before the last clip moves one forward with progress 0; at the last clip it changes nothing |
| VideoPlayer.Prev | src/components/VideoPlayer.tsx:30-35 | `goToPrev` after the first clip moves one back with progress 0; at index 0 it changes nothing |
| VideoPlayer.StepInRange | src/components/VideoPlayer.tsx:23-35 | every event keeps `currentIndex` within the clip list |
| VideoPlayer.StepsInRange | src/components/VideoPlayer.tsx:23-35 | any sequence of events keeps `currentIndex` within the clip list |
| VideoPlayer.InitialInRange | src/components/VideoPlayer.tsx:14-17 | the initial state (index 0, playing, not muted, progress 0) is in range for a non-empty list |
| VideoPlayer.PrevUndoesNext | src/components/VideoPlayer.tsx:23-35 | going back after going forward returns to the same clip, progress reset |
| VideoPlayer.NextUndoesPrev | src/components/VideoPlayer.tsx:23-35 | going forward after going back returns to the same clip, progress reset |
| VideoPlayer.PausedTickNoChange | src/components/VideoPlayer.tsx:37-38 | while paused no interval runs, so a tick changes nothing |
| VideoPlayer.LastClipRestarts | src/components/VideoPlayer.tsx:40-44 | at the last clip a tick at full progress sets progress back to 0 instead of holding it |
| VideoPlayer.TicksCount | src/components/VideoPlayer.tsx:40-46 | below full progress each playing tick adds one tenth of a second to the progress |
| VideoPlayer.ClipPlaysThrough | src/components/VideoPlayer.tsx:37-46 | a clip of `d` seconds, played from progress 0, advances to the next clip with progress 0 on tick `10 * d + 1` |
| VideoPlayer.TickAtFull | src/components/VideoPlayer.tsx:41-43 | a tick at full progress, before the last clip, calls `goToNext` and resets progress |
| VideoPlayer.StepsAppend | src/components/VideoPlayer.tsx:37-98 | handling two event sequences in turn is handling their concatenation |
| VideoPlayer.KeyMapping | src/components/VideoPlayer.tsx:58-64 | `ArrowUp` goes back, `ArrowDown` goes forward, space toggles playing, and any other key changes nothing |
| VideoPlayer.SwipeThreshold | src/components/VideoPlayer.tsx:81-88 | a swipe acts only when the distance between `startY` and `endY` exceeds 50 (exactly 50 does nothing); upward is next, downward is previous |
| VideoPlayer.ButtonsFlipOneFlag | src/components/VideoPlayer.tsx:157-166 | the mute button flips only `isMuted` and the play button only `isPlaying`; index and progress stay |
| VideoPlayer.Player.constructor | src/components/VideoPlayer.tsx:14-17 | a new player starts in the initial state |
| VideoPlayer.Player.GoToNext | src/components/VideoPlayer.tsx:23-28 | the new state is `Next` of the old one |
| VideoPlayer.Player.GoToPrev | src/components/VideoPlayer.tsx:30-35 | the new state is `Prev` of the old one |
| VideoPlayer.Player.OnTick | src/components/VideoPlayer.tsx:37-55 | the new state is one tick of the old one |
| VideoPlayer.Player.HandleKeyDown | src/components/VideoPlayer.tsx:58-64 | the new state is the key mapping applied to the old one |
| VideoPlayer.Player.HandleTouchEnd | src/components/VideoPlayer.tsx:81-88 | the new state is the swipe mapping applied to the old one |
| VideoPlayer.Player.ToggleMute | src/components/VideoPlayer.tsx:157 | only `isMuted` flips |
| VideoPlayer.Player.TogglePlay | src/components/VideoPlayer.tsx:166 | only `isPlaying` flips |
| VideoPlayer.Player.Handle | src/components/VideoPlayer.tsx:37-98 | any event moves the player as `Step` says, so `StepsInRange` keeps its index in range |
| WordMapper.PyStripStart | OBrainRot-master/example.py:18 | `lstrip()` leaves no leading Python whitespace |
| WordMapper.PyStripEnd | OBrainRot-master/example.py:18 | `rstrip()` leaves no trailing Python whitespace and keeps the first character |
| WordMapper.PyStripStartSplit | OBrainRot-master/example.py:18 | `lstrip()` removes only whitespace |
| WordMapper.PyStripEndSplit | OBrainRot-master/example.py:18 | `rstrip()` removes only whitespace |
| WordMapper.PyStrip | OBrainRot-master/example.py:18-23 | `strip()` leaves no whitespace at either end |
| WordMapper.Token | OBrainRot-master/example.py:18 | the token at the head is a prefix without whitespace, ended by whitespace or by the end |
| WordMapper.Words | OBrainRot-master/example.py:18-23 | every word `split()` gives is a non-empty token without whitespace |
| WordMapper.WordsStrip | OBrainRot-master/example.py:18-23 | `strip()` before `split()` changes nothing |
| WordMapper.WordsJoin | OBrainRot-master/example.py:18 | the words of tokens joined by single spaces are those tokens |
| WordMapper.LinePairsTitle | OBrainRot-master/example.py:16-20 | a `Title:` line gives one pair per word after the prefix |
| WordMapper.LinePairsDescription | OBrainRot-master/example.py:21-25 | a `Description:` line that is not a `Title:` line gives one pair per word after its prefix |
| WordMapper.LinePairsOther | OBrainRot-master/example.py:15-25 | a line with neither prefix gives no pairs |
| WordMapper.AppendPairs | OBrainRot-master/example.py:19-20 | the inner loop appends exactly the line's pairs, in word order |
| WordMapper.MapWordsToTitleDescription | OBrainRot-master/example.py:1-26 | the nested loops compute `Mapping` of the whole input |
| WordMapper.MappingPrefix | OBrainRot-master/example.py:15-25 | one more line appends that line's pairs to the output so far |
| WordMapper.MappingAppend | OBrainRot-master/example.py:15-25 | the output follows line order: the mapping of `a + b` is that of `a` then that of `b` |
| WordMapper.MappingLength | OBrainRot-master/example.py:15-25 | the output length is the sum of the lines' word counts |
| WordMapper.MappingPairs | OBrainRot-master/example.py:18-25 | every pair's word is a non-empty token without whitespace, and its line is an input line |
| WordMapper.OtherLineIgnored | OBrainRot-master/example.py:15-25 | appending a line with neither prefix leaves the output unchanged |
| WordMapper.SampleMapping | OBrainRot-master/example.py:29-35 | the sample gives 12 pairs: the 11 title words with the title line, then `[deleted]` with the description line |

## Left out

- The prompts, the `GoogleGenerativeAI` SDK, `fetch`, `Deno.env` and `import.meta.env` are not
  modelled. They appear only as the injected `reply`/`fetch` outcomes and the key parameter. The
  model name and the URL are not modelled either.
- `JSON.parse` is the oracle `parse`. Only arrays of strings are modelled. An array with non-string
  elements, on which `content.trim()` in the client's mapping would throw, is not modelled.
- String lengths count Unicode scalar values, not UTF-16 code units. The `> 10` filters and
  `text.length / 500` differ from JavaScript only for text outside the Basic Multilingual Plane.
- Progress is an integer count of 100 ms ticks, full at `10 * duration`. `prev + 100/(duration*10)`
  in floating point may need one extra tick to reach 100. That rounding, and a clip duration of 0
  (an infinite step), are not modelled.
- The React mechanics (`useEffect`, `setInterval`/`clearInterval`, stale closures, re-renders,
  listener registration) are not modelled. Events are handled one at a time, in order.
- Rendering, icons, CSS, the progress-bar width, `console.*` output, CORS and `OPTIONS`, and
  response headers are not modelled. Neither is `response.text()` on a non-2xx response, nor
  `src/components/FileUpload.tsx`, PDF extraction, `src/pages/Index.tsx`,
  `DurationSelector.tsx`, `GenerateButton.tsx` and `Header.tsx`.
- `Math.random` and `Date.now` are each one indexed stream per operation. The model does not connect
  the streams used by generation and by the shuffle that follows it.
- An empty key and an undefined key are both "missing". `SummarizeClient.Summarize` takes the key
  as a string in which `[]` means missing.
- The server request's `text` field is a string when present. A non-string `text` (a number, say)
  is not modelled. The request's `duration` is read but unused, so it is left out.
- WordMapper.MapWordsToTitleDescription: returns `Pair(word, line)` values instead of two-element
  Python lists. The module-level `print` is left out.
- WordMapper.SampleMapping: the sample lines are given as `"Title:" + " " + Join(words, " ")` and
  `"Description:" + " " + "[deleted]"`, which are the two literals of the example.
- VideoPlayer.Player: the clip list is fixed for a player's lifetime. A shuffle replaces the list
  without resetting the index, and that is not modelled.
- Clips.ShuffleClips: the copied array is a Dafny `array`; the input is a sequence, so it cannot be
  mutated by construction.
