# Telegram real-estate publications: a Dafny model

The repository publishes apartment reports to a Telegram channel. Its scripts
read listing rows from a PostgreSQL table (`bayut_properties`), turn them into
a text report, clean that text for Telegram, cut it into chunks and post the
chunks one by one. Around this sit small rule engines:
- a `.env` loader;
- a job scheduler that maps Russian day names to weekly jobs;
- a one-shot launcher that starts the scripts due now;
- a script that splices an advertising block into a saved report.

This project models that logic in Dafny and proves properties of it. The
database, the HTTP API, the clock, the random generator and the file system
are replaced by parameters. The modules follow the scripts:

- `Text` and `Seq` (text.dfy) hold Python's string and list built-ins as the
  scripts use them: `str.strip`, `str.split`, `sep.join`, `str.split()`
  tokens, `str.replace`, `str.lower`, `str()`, `sorted(set(...))`.
  They also hold the one filtering, sorting and `head(k)` function that
  `df[df.col == v].sort_values(key).head(k)` stands for. The stable sort is
  specified up to ties.
- `Sanitizer` (sanitizer.dfy) models `clean_html_and_sanitize`.
  `html.unescape` is a function parameter. The three copies (in
  price_changes_publisher.py, telegram_publisher.py and
  find_cheapest_apartments_langchain.py) are identical, so there is one model.
- `Chunker` (chunker.dfy) models `split_text_into_chunks`:
  - The three-level chunker (lines, then sentences, then words) is shared
    by the two publishers. It flattens the text into *units*, each a piece of
    text with the newline or space the loop appends after it. One greedy
    accumulator step is folded over the units.
  - The line-only chunker of the cheapest-apartments script is the same fold
    over whole lines.
  - The nested loops are methods proved equal to the fold.
- `Delivery` (delivery.dfy) models the posting loops:
  - `TelegramPublisher.send_message` in both publishers, and
    `publish_analysis`'s early exit.
  - `send_to_telegram` of the cheapest-apartments script.
  - HTTP answers come from an oracle `respond(i)` (a status, or an exception).
  - What the loop does is recorded as events: posts and saved diagnostic files.
- `PriceChanges` (pricechanges.dfy) models `find_price_change_apartments`:
  - the tier selector;
  - the meaning of the window query over each id's observation history;
  - the synthetic fallback rows;
  - the `0.1 < |pct| <= 25` band;
  - the per-location top three;
  - the report layout.
- `Cheapest` (cheapest.dfy) models the three cheapest apartments per
  location of find_cheapest_apartments.py.
- `GroupedReport` and `Neighbourhood` (langchain.dfy) model two functions
  of find_cheapest_apartments_langchain.py:
  - `format_apartments_report`, an uncapped list per location;
  - `extract_neighborhood`, a priority search.
- `EnvFile` (envfile.dfy) models load_env.py. `os.environ` is an object
  whose map the methods update.
- `Weekdays`, `PublicationScheduler` and `LaunchScheduler` (scheduler.dfy)
  cover the day names, publication_scheduler.py and scheduler.py.
- `Marketing` (marketing.dfy) models `add_marketing_block_to_report`: the
  splice and the output name, with `os.path`'s POSIX rules written out.

Lengths are Python `len`, that is, code points. Prices are `real`.

## Model

| member | source | states |
|---|---|---|
| Text.StripShape | price_changes_publisher.py:83 | `strip()` never lengthens, leaves no whitespace at either end, and drops trailing whitespace such as the space or newline the chunker appends |
| Text.JoinSplit | price_changes_publisher.py:71 | `text.split('\n')` joined again with `'\n'` is the text: the lines cover it |
| Text.SortUnique | price_changes_publisher.py:299 | `sorted(unique)` is strictly ascending and has exactly the elements of its input |
| Seq.TopKSpec | find_cheapest_apartments.py:86 | filter, sort and `head(k)` give min(k, matches) matching rows, sorted by the key, a sub-multiset of the matches, and no left-out match sorts before a kept one |
| Sanitizer.StripTags | price_changes_publisher.py:51 | removing tags never lengthens the text and never introduces a character |
| Sanitizer.StripTagsNoTag | price_changes_publisher.py:51 | after `re.sub(r'<[^>]+>', '', ...)` no match of the pattern is left |
| Sanitizer.StripTagsFixed | price_changes_publisher.py:51 | text without a tag is left unchanged |
| Sanitizer.StripTagsIdempotent | price_changes_publisher.py:51 | tag stripping twice is tag stripping once |
| Sanitizer.EscapePerChar | price_changes_publisher.py:54-59 | the three sequential replacements (`&` first) and the deletion of controls act character by character: `&`, `<`, `>` become their entities, controls vanish, and nothing else changes |
| Sanitizer.MapSanitize | price_changes_publisher.py:54-59 | the escaped text holds no `<`, no `>` and no character of the control class |
| Sanitizer.RemoveControls | price_changes_publisher.py:59 | no character of 0x00-08, 0x0B, 0x0C, 0x0E-1F, 0x7F-9F survives |
| Sanitizer.SanitizeIsPerChar | telegram_publisher.py:40-59 | the whole sanitiser is tag stripping of the unescaped text followed by the per-character map |
| Sanitizer.MapSanitizeEscaped | price_changes_publisher.py:54-56 | every `&` of the result begins `&amp;`, `&lt;` or `&gt;` |
| Sanitizer.MapSanitizeKeepsLayout | price_changes_publisher.py:59 | tab, LF and CR survive, in order and in number |
| Sanitizer.SanitizeSpec | price_changes_publisher.py:42-61 | the output has no `<`, `>` or control character, every `&` starts an entity, and its tabs and line breaks are those of the tag-stripped input |
| Chunker.BreakFrom | price_changes_publisher.py:76 | the first position at or after i where a whitespace run follows `.`, `!` or `?`, or the end |
| Chunker.SentenceSplit | price_changes_publisher.py:76 | `re.split(r'(?<=[.!?])\s+', p)` yields at least one sentence |
| Chunker.SentenceSplitTokens | price_changes_publisher.py:76 | the sentences carry exactly the whitespace-separated tokens of the paragraph |
| Chunker.AddUnit | price_changes_publisher.py:94-98 | one piece enters the accumulator exactly as the greedy step says: a flush of the stripped text when it does not fit, else an append with its separator |
| Chunker.AddWords | price_changes_publisher.py:80-86 | the word loop of an over-long sentence leaves the state that folding the step over the words, each followed by a space, gives |
| Chunker.AddSentences | price_changes_publisher.py:76-92 | the sentence loop of an over-long line leaves the state that folding the step over the sentence units gives |
| Chunker.SplitTextIntoChunks | price_changes_publisher.py:63-104 | the nested loops over lines, sentences and words return the fold of the greedy step over the units |
| Chunker.SplitLinesIntoChunks | find_cheapest_apartments_langchain.py:207-219 | the loop over lines returns the fold of the same step over whole lines |
| Chunker.FoldTokens | price_changes_publisher.py:82-98 | each step keeps the tokens: those of the chunks emitted and of the buffer are those of the units so far |
| Chunker.ChunksTokens | price_changes_publisher.py:71-98 | words are never cut, lost or invented: the chunks' tokens, in order, are the text's tokens; the copy at telegram_publisher.py:61-102 is the same |
| Chunker.LineChunksTokens | find_cheapest_apartments_langchain.py:210-218 | the line-only chunker keeps the tokens in order |
| Chunker.ChunksStripped | price_changes_publisher.py:83-102 | every chunk equals its own `strip()` |
| Chunker.LineChunksStripped | find_cheapest_apartments_langchain.py:213-218 | every line-only chunk equals its own `strip()` |
| Chunker.FoldBound | price_changes_publisher.py:82-96 | with no unit over max (≥1), every chunk fits and the buffer holds at most max + 1 characters, the last a space or newline |
| Chunker.ChunksBound | price_changes_publisher.py:63-104 | when no run without a space or line break exceeds max (≥1), no chunk exceeds max; the same holds for the copy at telegram_publisher.py:61-102 |
| Chunker.LineChunksBound | find_cheapest_apartments_langchain.py:207-219 | when every line fits, every line-only chunk fits |
| Chunker.ChunksEmpty | price_changes_publisher.py:101-104 | empty input gives no chunk, for both chunkers, when max ≥ 1 |
| Chunker.ChunksRuns | price_changes_publisher.py:73-102 | the chunks are the stripped texts of consecutive runs of units covering the text; the last run counts only when it is non-blank; a unit that alone does not fit is a run of its own |
| Chunker.LineChunksRuns | find_cheapest_apartments_langchain.py:211-218 | the line-only chunks are stripped runs of consecutive lines; an over-long line is alone in its chunk |
| Chunker.FirstChunkEmpty | price_changes_publisher.py:94-95 | when the first unit alone does not fit, the empty buffer is flushed first and chunk 0 is `""` |
| Chunker.ChunksStartEmpty | price_changes_publisher.py:94-96 | a first line exactly max long makes the first chunk `""` |
| Chunker.LongParagraphSpaces | price_changes_publisher.py:75-92 | every unit of an over-long line is followed by a space: its newline is lost |
| Delivery.PostChunk | price_changes_publisher.py:417-457 | one chunk: post it; on a status other than 200 read the error text and save the chunk, then retry it shortened when over 1000 characters; an exception from the post, from `response.text()` or from the error file ends that chunk, so nothing after it happens |
| Delivery.Deliver | price_changes_publisher.py:394-457 | the events of the loop are the log of the decorated, fitted chunks in order |
| Delivery.SendMessage | price_changes_publisher.py:382-464 | sanitise, chunk at 3000, deliver; the result is false with nothing posted exactly when the session cannot be opened; telegram_publisher.py:116-191 is the same loop with a lighter decoration |
| Delivery.PublishAnalysis | telegram_publisher.py:193-210 | a missing or empty analysis returns false and posts nothing; otherwise the result and the events are those of `send_message` |
| Delivery.SendToTelegram | find_cheapest_apartments_langchain.py:239-267 | nothing is posted and nothing raised without a token and a channel; a session that cannot be opened raises out of the function with nothing posted; otherwise line chunks, decorated, never truncated and never retried |
| Delivery.FitSpec | price_changes_publisher.py:413-415 | a chunk over 4000 goes out as its first 3997 characters and `...`, exactly 4000 long; otherwise unchanged; telegram_publisher.py:138-140 applies the same rule |
| Delivery.ShortenSpec | price_changes_publisher.py:438-439 | the retry is the first 950 characters and the marker, 975 characters in all |
| Delivery.DecorateSpec | price_changes_publisher.py:396-410 | the chunk sits unchanged between the opening (preamble and banner) and the closing (investor note and hashtags) |
| Delivery.OpenCloseSpec | telegram_publisher.py:130-135 | only chunk 0 is opened and only the last chunk is closed; a single chunk gets both |
| Delivery.OutgoingSpec | find_cheapest_apartments_langchain.py:248-254 | the publishers never post over 4000 characters; the cheapest-apartments loop posts the decorated chunk as is |
| Delivery.ChunkEventsSpec | price_changes_publisher.py:425-451 | one chunk posts first, saves one file exactly when rejected and the error text and the file write succeed, and posts twice exactly when a publisher has saved a rejected chunk over 1000, the second time shortened |
| Delivery.LogOrdered | price_changes_publisher.py:394 | the events concern the chunks in chunk order |
| Delivery.LogPostsAll | price_changes_publisher.py:417-457 | every chunk is posted, whatever happened to the chunks before it |
| Delivery.LogPostsFit | price_changes_publisher.py:412-415 | no post of a publisher is over 4000 characters |
| Delivery.LogSavedCount | telegram_publisher.py:150-160 | one diagnostic file is saved per rejected chunk whose handling does not raise |
| PriceChanges.FindPriceChangeApartments | price_changes_publisher.py:106-368 | the method computes the analysis function: None for a failing database or a missing required column, otherwise tier, band, locations, report |
| PriceChanges.AppendLocation | price_changes_publisher.py:301-350 | the lines one location appends: nothing for an empty name or no rows, else its block |
| PriceChanges.BuildReport | price_changes_publisher.py:295-350 | the title followed by the blocks of the sorted locations |
| PriceChanges.FallbackParts | price_changes_publisher.py:135-142 | the fallback rows are the undated qualifying rows, then the dated ones latest first, and the two parts together are exactly the qualifying rows |
| PriceChanges.FallbackRows | price_changes_publisher.py:135-142 | min(1000, qualifying) rows, each a stored row with price > 0 and 0 < area ≤ 40, a sub-multiset of the qualifying rows and all of them when at most 1000 qualify |
| PriceChanges.FallbackRecent | price_changes_publisher.py:140-141 | no qualifying row that `LIMIT 1000` drops is more recent than a dated row it keeps |
| PriceChanges.FallbackOrder | price_changes_publisher.py:140 | `ORDER BY updated_at DESC` with NULLs first |
| PriceChanges.SyntheticSpec | price_changes_publisher.py:147-149 | one synthetic row per fallback row; absolute_change = price·pct/100 and prev_price = price − absolute_change |
| PriceChanges.TierSpec | price_changes_publisher.py:150-256 | with the columns present, a raising or empty window query gives the synthetic rows and a non-empty one is used as is; there are no changes exactly when the window query finds none and no row qualifies |
| PriceChanges.PriceChangeExists | price_changes_publisher.py:159-188 | an id has a change exactly when it has two observations (with both windows ordering ties alike); then prev_price > 0 and pct = (current − prev)/prev·100 |
| PriceChanges.PriceChangeLatest | price_changes_publisher.py:164-188 | the change compares the latest observation with the one just before it; every other observation is no later |
| PriceChanges.WindowRowsSpec | price_changes_publisher.py:190-207 | each window row is a stored small row of an id whose change exceeds 0.1%, and every such row appears |
| PriceChanges.TopSpec | price_changes_publisher.py:306 | a location shows at most three rows, all its own, and three whenever it has that many |
| PriceChanges.TopOrdered | price_changes_publisher.py:274 | the shown rows come largest \|pct\| first |
| PriceChanges.TopMaximal | price_changes_publisher.py:274-306 | no row left out of a location moves more than a shown one |
| PriceChanges.ShownInBand | price_changes_publisher.py:273-306 | every row shown is a change with 0.1 < \|pct\| ≤ 25 |
| PriceChanges.LocationsSpec | price_changes_publisher.py:299-303 | the locations are sorted, distinct and exactly the named ones; a NULL among named locations makes the analysis fail |
| PriceChanges.DirectionSpec | price_changes_publisher.py:324-326 | 📈 and `+` exactly when pct > 0, 📉 and no sign otherwise |
| PriceChanges.BlockShape | price_changes_publisher.py:311-350 | a block is the location line, the rule, nine lines per row and a blank line |
| PriceChanges.BlockEntry | price_changes_publisher.py:314-348 | row m + 1 of a block is its entry numbered m + 1, at lines 2 + 9m to 11 + 9m |
| PriceChanges.EntrySpec | price_changes_publisher.py:340-348 | an entry opens with its number and title, names the id and link, and ends blank |
| PriceChanges.RedrawSpec | price_changes_publisher.py:276-292 | the re-sampling branch, if it ran, would leave every draw with \|value\| ≥ 0.1, the edge of the closed dead band included, and keep draws outside it |
| PriceChanges.AnalysisSpec | price_changes_publisher.py:128-368 | no analysis exactly when the database fails, a required column is missing (the demonstration query names it and raises), there are no changes, NULL and named locations mix in the band, or the file cannot be written; an analysis starts with the title |
| Cheapest.FindCheapestApartments | find_cheapest_apartments.py:42-129 | the method computes the analysis function |
| Cheapest.AppendLocation | find_cheapest_apartments.py:81-111 | the lines one location appends |
| Cheapest.BuildReport | find_cheapest_apartments.py:75-111 | the title followed by the blocks of the sorted locations |
| Cheapest.QuerySpec | find_cheapest_apartments.py:56-62 | the query keeps exactly the rows with an area of at most 40 |
| Cheapest.LocationsSpec | find_cheapest_apartments.py:79 | sorted, distinct, exactly the named locations; a NULL among named ones fails |
| Cheapest.ShownSpec | find_cheapest_apartments.py:79-83 | the locations shown are ascending, each once, and exactly the non-empty named ones |
| Cheapest.Cheapest3Spec | find_cheapest_apartments.py:86 | at most three apartments, all of that location, and three whenever it has that many |
| Cheapest.Cheapest3Ordered | find_cheapest_apartments.py:86 | ascending price, missing prices last |
| Cheapest.Cheapest3Minimal | find_cheapest_apartments.py:86 | no apartment left out is cheaper than one shown |
| Cheapest.LocationLinesEmpty | find_cheapest_apartments.py:81-89 | a location with a row shows a block exactly when its name is not empty |
| Cheapest.BlocksShown | find_cheapest_apartments.py:81-111 | the body is one block per non-empty location, in order |
| Cheapest.ReportShape | find_cheapest_apartments.py:75-111 | the report lines are the title and then those blocks |
| Cheapest.BlockShape | find_cheapest_apartments.py:91-111 | a block is the location line, a 30-dash rule, seven lines per apartment and a blank line |
| Cheapest.BlockEntry | find_cheapest_apartments.py:94-109 | apartment m + 1 is numbered m + 1, at lines 2 + 7m to 9 + 7m |
| Cheapest.EntrySpec | find_cheapest_apartments.py:103-109 | an entry opens with its number, names the id and link, and ends blank |
| Cheapest.MissingAsZero | find_cheapest_apartments.py:95-101 | a missing price, area or room count renders as 0 |
| Cheapest.AnalysisSpec | find_cheapest_apartments.py:62-129 | no analysis exactly when the database fails, no row qualifies, NULL and named locations mix, or the file cannot be written; an analysis starts with the title |
| GroupedReport.AppendGroup | find_cheapest_apartments_langchain.py:225-236 | one group appends its lines, or raises exactly when a row of it lacks price or area |
| GroupedReport.AppendEntries | find_cheapest_apartments_langchain.py:228-235 | the inner loop completes exactly when every row has price and area, and then appends the numbered entries |
| GroupedReport.FormatApartmentsReport | find_cheapest_apartments_langchain.py:221-237 | the method computes the report function |
| GroupedReport.GroupMember | find_cheapest_apartments_langchain.py:225 | a group holds exactly the rows of its location |
| GroupedReport.GroupsSpec | find_cheapest_apartments_langchain.py:225 | the group keys are sorted, distinct and exactly the named locations |
| GroupedReport.NoneRaises | find_cheapest_apartments_langchain.py:231-232 | when every group prints completely, no row raises |
| GroupedReport.GroupSpec | find_cheapest_apartments_langchain.py:228 | no cap: a group lists every row of its location, cheapest first |
| GroupedReport.GroupEntry | find_cheapest_apartments_langchain.py:226-236 | a group's lines are 3 + 7·rows long, and row m + 1 is numbered m + 1 in group order |
| GroupedReport.ReportSpec | find_cheapest_apartments_langchain.py:221-237 | an empty frame gives the fixed message; otherwise the report fails exactly when a named row lacks price or area, and starts with the header |
| Neighbourhood.FixQuotesSpec | find_cheapest_apartments_langchain.py:68-69 | each single quote becomes a double quote, nothing else changes, and none is left |
| Neighbourhood.PickSpec | find_cheapest_apartments_langchain.py:75-93 | the first neighbourhood's name, else the first level 2, else the first level 1, else the first item's name, else None |
| Neighbourhood.FallbackSpec | find_cheapest_apartments_langchain.py:94-120 | the regular-expression fallback answers with the first of the four patterns that matches, and None when none does |
| Neighbourhood.ExtractSpec | find_cheapest_apartments_langchain.py:64-120 | no value gives None; text without single quotes is parsed unchanged; an empty parsed list gives None |
| EnvFile.Environment.LoadEnvironmentVariables | load_env.py:11-31 | a missing `.env` returns false and changes nothing; otherwise the environment becomes the fold of the parsed lines, the call raises exactly when the fold does, and returns true when it does not |
| EnvFile.Environment.ApplyLine | load_env.py:20-26 | one line: skip it, fail on it, or assign the value its split gives |
| EnvFile.Environment.SetTelegramEnvVars | load_env.py:33-41 | each variable is set only when its argument is truthy, and nothing else changes |
| EnvFile.ParseSpec | load_env.py:21-26 | blank and `#` lines are skipped; a line without `=` fails; others split at the first `=` with both halves stripped |
| EnvFile.FoldRaised | load_env.py:25 | once a line has raised, no later line changes anything |
| EnvFile.FoldRaises | load_env.py:20-26 | the loop raises exactly when some line lacks `=` |
| EnvFile.FoldStops | load_env.py:20-26 | after a raise, the assignments of the earlier lines stay applied and no later one is |
| EnvFile.FoldLookup | load_env.py:20-26 | without a failing line, the last assignment of a key wins, and keys no line names are untouched |
| Weekdays.RussianDay | publication_scheduler.py:79-99 | a recognised name is that weekday's Russian name |
| Weekdays.RussianNameRoundTrip | scheduler.py:16-24 | each weekday's Russian name is recognised as that weekday |
| Weekdays.RussianDaySpec | publication_scheduler.py:79-104 | exactly the seven names are recognised |
| Weekdays.EnglishNameInjective | scheduler.py:16-24 | distinct weekdays map to distinct English names |
| LaunchScheduler.LaunchDue | scheduler.py:26-32 | the loops launch the scripts of the entries that fire now, in order, up to the first publication without `days`; the run raises exactly when there is one |
| LaunchScheduler.LaunchDays | scheduler.py:27-32 | the inner loop launches one publication's script once per firing entry |
| LaunchScheduler.FiresSpec | scheduler.py:28-29 | an entry fires exactly when, lower-cased, it names today's weekday and the time matches |
| LaunchScheduler.DailyNeverFires | scheduler.py:16-29 | `ежедневно`, which the other scheduler accepts, never fires here |
| LaunchScheduler.DayLaunchesSpec | scheduler.py:27-32 | one launch per firing entry when the script exists, none otherwise; a duplicated day launches twice |
| LaunchScheduler.DayLaunchesMember | scheduler.py:27-32 | a publication launches its script exactly when an entry fires and the script exists |
| LaunchScheduler.LaunchesMember | scheduler.py:26-32 | a script is launched exactly when it exists and a firing entry of a publication names it |
| PublicationScheduler.ConfigSchedule | publication_scheduler.py:28-104 | a missing file or one without `"publications"` registers nothing and does not raise; otherwise scheduling raises exactly when a listed publication fails, and without a raise registers all their jobs in order |
| PublicationScheduler.ChildEnvironment | publication_scheduler.py:39-46 | without a truthy `sql_config` the copy is unchanged; with one, each DB key takes the config value, else the inherited value, else `""`; other keys are unchanged |
| PublicationScheduler.RunScript | publication_scheduler.py:36-62 | starting fails exactly when a config value other than DB_PORT is not a string; otherwise the child's environment is that copy |
| PublicationScheduler.ScheduleJobs | publication_scheduler.py:64-114 | the loops register the jobs of the schedule function, and raise when it does |
| PublicationScheduler.RegisterDays | publication_scheduler.py:76-104 | one publication registers its jobs, or raises when `.at()` rejects its time on a recognised entry |
| PublicationScheduler.RecogniseSpec | publication_scheduler.py:77-104 | the seven weekday names and `ежедневно`, in any case, register; nothing else does |
| PublicationScheduler.JobsForSpec | publication_scheduler.py:76-104 | one job per recognised entry, in order, at the publication's time, with its script and `sql_config` |
| PublicationScheduler.ScheduleStays | publication_scheduler.py:64-104 | after a raise nothing more is registered |
| PublicationScheduler.ScheduleRaises | publication_scheduler.py:64-104 | scheduling raises exactly when some publication fails |
| PublicationScheduler.ScheduleAll | publication_scheduler.py:64-104 | without a raise, every publication's jobs are registered in order |
| PublicationScheduler.ScheduleFirstFailure | publication_scheduler.py:64-104 | when publication n fails first, the jobs of those before it stay registered |
| Marketing.AddMarketingBlockToReport | add_marketing_to_report.py:7-75 | the result is the new path and text exactly when reading and writing succeed |
| Marketing.SpliceSpec | add_marketing_to_report.py:42-55 | the block goes right after the introduction's closing newline, else after the first newline, else after an added newline at the end; the text around it is unchanged |
| Marketing.RemoveRecovers | add_marketing_to_report.py:42-55 | taking the block out again gives back the content, plus the added newline when it was appended |
| Marketing.SplitExtSpec | add_marketing_to_report.py:60 | `os.path.splitext` gives base + extension = name; the extension is empty or the last dot onwards, with a non-dot before it |
| Marketing.JoinSplits | add_marketing_to_report.py:64 | joining a directory and a plain name gives back both as dirname and basename |
| Marketing.OutputSameDirectory | add_marketing_to_report.py:57-64 | the new file lies in the report's directory, named base + `_with_marketing` + extension |

## Left out

- Database access, HTTP, `asyncio.sleep`, logging and `print` are left out. Query results, HTTP answers and session failures are inputs. The clocks (`datetime.now()`), the error-file stamps and `np.random` draws are parameters too.
- `html.unescape` is a function parameter. The number formatting (`f"{x:,.2f}"`, `f"{x:.2f}"`, dates) is a parameter record.
- The regular expressions outside the chunker are oracles, because Python's `re` engine is not modelled. These are `extract_neighborhood`'s four fallback searches and the introduction pattern of add_marketing_to_report.py.
- `json.loads` in `extract_neighborhood` is an oracle. Its `Invalid` stands for JSONDecodeError and TypeError. Attribute errors on non-dict items are not modelled. `level` is an integer.
- Delivery: a failed error-file write records no file, even if `open` created an empty one. A raising `retry_response.text()` is caught after the retry was posted, so the retry stays among the events.
- The report files that find_cheapest_apartments.py and price_changes_publisher.py write are not kept; their success is a flag. The same goes for the marketing script. `os.makedirs` is assumed to succeed.
- Cheapest.Query: `ORDER BY location, price` is not modelled. The later sort fixes the order of everything shown except ties, which are not promised.
- PriceChanges.Redraw: the branch where `pct_change` is missing can never be taken, because every tier sets that column. It is modelled separately and is not wired in.
- PriceChanges.Changes: the window query's `ORDER BY` is not modelled; its rows are re-sorted by the same key. Timestamps are integers.
- PriceChangeExists: the model gives the LAG window and the ROW_NUMBER window one shared order of an id's rows, ties in `updated_at` included. PostgreSQL does not promise that. When two rows of an id share a timestamp, the row with rn = 1 can be the one whose LAG is NULL, and then the id is dropped. The lemma, PriceChangeLatest and WindowRowsSpec are faithful for ids whose timestamps are distinct.
- PriceChanges.Analysis: a required column is taken to be missing exactly when the information_schema probe does not report it. The demonstration query of that branch selects the missing column, so it raises and the analysis is None.
- GroupedReport: the rooms cell is rendered through a parameter. A row's title and link are strings.
- EnvFile: the file's lines are an input. `os.environ`'s checks on names are not modelled: the model accepts a key such as `""`, on which Python raises ValueError.
- PublicationScheduler: `sql_config` values are JSON strings or integers. null, booleans and floats are left out.
- PublicationScheduler: day entries are strings, so `str()` of other JSON values is left out.
- PublicationScheduler: a missing `script_name` or `time` (a KeyError) is left out. So is a truthy non-dict `sql_config` and a null `"publications"`.
- PublicationScheduler: whether `.at()` accepts a time is an oracle. The raise aborts the rest of `schedule_jobs`, and jobs registered before it stay.
- PublicationScheduler: the `schedule` library's run loop, the subprocess outcome, its timeout and the log messages are left out.
- LaunchScheduler: a missing `"publications"`, `time` or `script_name` (a KeyError) and a day entry that is not a string are left out.
- LaunchScheduler: the current day (`strftime('%A').lower()`, English locale) and time (`strftime('%H:%M')`) are inputs. The existence test on the joined script path is an oracle on script names. `Popen` is recorded as the launched script name.
- Text.Lower: covers ASCII, Latin-1 and Cyrillic letters only. The day names only need Cyrillic.
- Marketing: the three decoding attempts are one input. It is the content, or None when all of them fail.
- Marketing: `get_latest_report` and the command-line part of add_marketing_to_report.py are not part of this model.
- telegram_publisher.py imports `find_cheapest_apartments` from a module that does not define it. `publish_analysis` therefore takes the analysis as an input, and its absence models the failing call.
- The tier-2 and tier-3 synthetic rows draw `uniform(-5, 8)` without re-sampling the dead band. The band is only removed by the later `0.1 < |pct| <= 25` filter, and the model follows that code.
