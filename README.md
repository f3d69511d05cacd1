# Limitless exporter scripts, modelled in Dafny

This project models the deterministic core of the Limitless exporter. The
exporter is a set of Python scripts that back up a Limitless pendant
account: lifelogs, chats, daily insights and recorded audio, plus analytics
and an index of the archive. The network calls, file writes and plotting
are left out. What is modelled is the logic that decides what gets
downloaded, where it is stored and what gets counted. Each part is proved
against a specification.

One module per concern:

| file | module | scripts |
|---|---|---|
| `common.dfy` | `Common` | shared sequence, map, grouping and sorting definitions |
| `calendar.dfy` | `Calendar` | proleptic Gregorian dates and whole-second instants |
| `text.dfy` | `Text` | digits, zero padding, ISO dates, ASCII `lower()`, string order |
| `stamp_token.dfy` | `StampToken` | the `M/D/YY h:mm AM` token regex and its `strptime` parse |
| `audio_planner.dfy` | `AudioPlanner` | `batch_export_audio.py`: timestamps → periods → sessions → chunks → labels |
| `audio_month.dfy` | `AudioMonth` | `batch_export_audio_month.py`: the per-day driver, file names, date range |
| `session_spans.dfy` | `SessionSpans` | `analyze_daily_usage.py` and `analyze_monthly_usage.py` |
| `file_names.dfy` | `FileNames` | `sanitize_filename` of the three chat scripts |
| `chat_data.dfy` | `ChatData` | chat objects as read with `dict.get` |
| `chat_archive.dfy` | `ChatArchive` | routing, archive paths, archived IDs, chat filters |
| `chat_markdown.dfy` | `ChatMarkdown` | the three `format_chat_as_markdown` copies |
| `chat_analysis.dfy` | `ChatAnalysis` | `analyze_chats.py` |
| `insights.dfy` | `Insights` | `batch_export_insights.py` |
| `archive_index.dfy` | `ArchiveIndex` | `generate_index.py` |
| `lifelog_coverage.dfy` | `LifelogCoverage` | `verify_lifelog_coverage.py` |

Modelling conventions:

- **Instants.** An instant is a whole number of seconds of wall-clock time.
- **JSON values.** A value read with `dict.get` is a `Field`: missing, null,
  or a string.
- **Timestamps.** A timestamp field is a `Stamp`: absent, unparseable, or
  parsed.
- **Loops.** Each loop of the scripts is a `method`, proved equal to a
  function that specifies it. The properties are proved about that
  function.
- **Environment.** Inputs from the environment are parameters: files that
  already exist, writes that fail, chunks the audio endpoint serves, and
  loaded JSON.

Two behaviours of the code worth knowing:

- `chunk_periods_by_duration` has no minimum duration: a zero-length
  session becomes one zero-length chunk.
- The coverage loop of `verify_lifelog_coverage.py` counts a lifelog under
  its date before the comparisons that may raise. A lifelog whose start
  time cannot be compared with the earlier ones is then also listed as
  undated (third finding below). `LifelogCoverage.AnalysisAsWritten`
  follows that loop; `LifelogCoverage.AnalyzeLifelogs` counts each lifelog
  once.
- `generate_index.py` reads every month and date key back with
  `datetime.strptime` and never catches its `ValueError`. A file name that
  carries an impossible date, such as `2025-13-01-notes.md` or
  `2025-02-30-call.md`, makes the master, monthly or type index raise.
  `ArchiveIndex.MonthlyIndex` and `ArchiveIndex.TypeIndexOf` say when a
  page generator raises.

## Model

| member | source | states |
|---|---|---|
| Common.SortBySpec | python/generate_index.py:85-87 | the key sort used for every `sort`/`sorted` returns a permutation of its input, ordered by the key |
| Calendar.NextDay | python/batch_export_audio_month.py:298 | `+ timedelta(days=1)` moves to the date whose day number is one more |
| Calendar.HourOf | python/batch_export_audio.py:233 | `dt.hour` is always in 0..23 |
| Calendar.DaysInMonth | python/analyze_monthly_usage.py:254 | `calendar.monthrange` gives 28..31 days, 31 exactly for the long months, 29 exactly for a leap February |
| Calendar.InstantFields | python/batch_export_audio.py:98 | an instant built from a date, hour and minute gives back that day, hour and minute |
| Text.Lower | python/export_all_chats.py:198 | the ASCII part of `lower()`: the length is kept and exactly the ASCII capitals are folded |
| StampToken.MatchAt | python/batch_export_audio.py:93 | a match at a position is a token of the pattern's shape whose parts spell exactly the matched text |
| StampToken.MatchDate | python/batch_export_audio.py:93 | the `\d{1,2}/\d{1,2}/\d{2}` part: one or two digits, '/', one or two digits, '/', two digits |
| StampToken.MatchTime | python/batch_export_audio.py:93 | the `\s+\d{1,2}:\d{2}\s+[AP]M` part, split into its runs |
| StampToken.OneOrTwoDigits | python/batch_export_audio.py:93 | a greedy `\d{1,2}` stops at two digits or at the first non-digit |
| StampToken.SpaceRunEnd | python/batch_export_audio.py:93 | a greedy `\s+` ends at the first character that is not whitespace |
| StampToken.MatchAtComplete | python/batch_export_audio.py:93 | the greedy matcher finds every well-formed token text at its position, so greediness loses no match |
| StampToken.RenderedTokenFound | python/batch_export_audio.py:93-94 | the text of every rendered timestamp is matched whole from its first character |
| StampToken.FindTokens | python/batch_export_audio.py:94 | `re.findall` yields only tokens of the pattern's shape |
| StampToken.ExtractInstants | python/batch_export_audio.py:96-101 | the loop over matches appends, in order, the instant of every token that parses |
| StampToken.ParsedAllAppend | python/batch_export_audio.py:96-101 | the parse of a concatenation is the concatenation of the parses, so token order is kept |
| StampToken.UnparseableTokenDropped | python/batch_export_audio.py:96-101 | a token whose `strptime` raises is dropped and the other tokens are unaffected |
| StampToken.Hour24Render | python/batch_export_audio.py:98 | `%I %p` reads every hour 0..23 back from its 12-hour form |
| StampToken.ParseRender | python/batch_export_audio.py:98 | parsing the rendering of a date, hour and minute gives back exactly that instant |
| AudioPlanner.StampInstants | python/batch_export_audio.py:111-122 | a structured `startTime`/`endTime` contributes its instant only when it parsed |
| AudioPlanner.ExtractTimestamps | python/batch_export_audio.py:88-136 | the collection step computes the timestamps of markdown, of a list, and none for any other input |
| AudioPlanner.GatherTimestamps | python/batch_export_audio.py:104-136 | the loop over lifelogs computes structured stamps with the markdown fallback |
| AudioPlanner.AppendItemStamps | python/batch_export_audio.py:110-122 | the item loop appends each item's start, then end, in item order |
| AudioPlanner.FallbackOnlyWhileEmpty | python/batch_export_audio.py:124-136 | once any timestamp is collected, later lifelogs add only their structured stamps |
| AudioPlanner.FallbackTakenWhenEmpty | python/batch_export_audio.py:124-136 | a lifelog's `full_markdown` is read when nothing was collected before it and its own items give nothing |
| AudioPlanner.MonthTimestamps | python/batch_export_audio_month.py:68-82 | the month script's collection is the single-day markdown collection, and nothing for missing or empty text |
| AudioPlanner.SortedDistinct | python/batch_export_audio.py:142 | `sorted(set(...))` is strictly increasing and has exactly the input's values |
| AudioPlanner.ClusterInstants | python/batch_export_audio.py:144-161 | the clustering loop computes `Cluster` |
| AudioPlanner.ClusterFromRuns | python/batch_export_audio.py:150-161 | from any point of the loop on, each period is a run of consecutive instants less than 300 s apart |
| AudioPlanner.ClusterFromSeparated | python/batch_export_audio.py:150-161 | from any point of the loop on, consecutive periods are at least 300 s apart |
| AudioPlanner.ClusterFromCovers | python/batch_export_audio.py:150-161 | from any point of the loop on, every remaining instant lies in an emitted period |
| AudioPlanner.ClusterFromFirst | python/batch_export_audio.py:147-161 | the first emitted period starts at the open period's start and the last ends at the last instant |
| AudioPlanner.ClusterShape | python/batch_export_audio.py:141-161 | clustering gives no period exactly when there is no instant; periods are tight runs, separated by at least 300 s, and cover every instant |
| AudioPlanner.ExtractRecordingPeriods | python/batch_export_audio.py:75-163 | `extract_recording_periods` clusters the deduplicated sorted timestamps, and returns no period exactly when it found no timestamp |
| AudioPlanner.SeparatedIncreasing | python/batch_export_audio.py:150-161 | the starts of the periods are strictly increasing |
| AudioPlanner.ClusterFeedsMerge | python/batch_export_audio.py:141-161 | the periods handed to the merge are sorted by start and have start ≤ end |
| AudioPlanner.MergeClosePeriods | python/batch_export_audio.py:166-192 | the merge loop, which rewrites `merged[-1]` in place, computes `Merge` with the gap in seconds |
| AudioPlanner.MergeFromShape | python/batch_export_audio.py:180-190 | from any point of the loop on, the output is no longer than its input and keeps the open session's start |
| AudioPlanner.MergeShape | python/batch_export_audio.py:177-192 | empty in gives empty out; never longer; first start kept; every start is an input start; adjacent outputs are at least `min_gap_minutes` apart |
| AudioPlanner.MergeFromCovers | python/batch_export_audio.py:180-190 | from any point of the loop on, every remaining period and the open session lie inside some output session, with start ≤ end |
| AudioPlanner.MergeCovers | python/batch_export_audio.py:177-192 | every input period lies inside some merged session, and sessions have start ≤ end |
| AudioPlanner.Openers | python/batch_export_audio.py:180-190 | the indices of the periods that open a session are increasing and in range |
| AudioPlanner.MergeExact | python/batch_export_audio.py:177-192 | on periods with start ≤ end and a non-negative gap: one session per opening period, where a period opens a session exactly when it is the first or starts at least the gap after the latest earlier end; each session starts at its opener and ends at the latest end of the periods it absorbs |
| AudioPlanner.ChunkPeriodsByDuration | python/batch_export_audio.py:195-223 | the chunking loop computes `Chunks` for `max_hours` |
| AudioPlanner.ChunkPeriod | python/batch_export_audio.py:205-221 | one session becomes one chunk when it fits, else the pieces of the while loop |
| AudioPlanner.SplitPeriod | python/batch_export_audio.py:214-221 | the while loop, advancing `current_start`, computes the pieces of a session |
| AudioPlanner.SplitTiles | python/batch_export_audio.py:214-221 | the pieces tile the session contiguously; each is non-empty and at most `max_hours`; all but the last are exactly `max_hours` |
| AudioPlanner.PeriodChunksTile | python/batch_export_audio.py:206-221 | a session's chunks tile it exactly, each at most `max_hours`; a session of at most `max_hours`, even of zero length, is exactly one chunk equal to it |
| AudioPlanner.SplitLabels | python/batch_export_audio.py:216-221 | consecutive pieces carry consecutive chunk indices |
| AudioPlanner.PeriodChunksLabelled | python/batch_export_audio.py:208-221 | a session's chunks carry consecutive indices from the one it starts with |
| AudioPlanner.ChunkIndices | python/batch_export_audio.py:202-221 | `chunk_index` starts at 1 and rises by one per chunk over all sessions |
| AudioPlanner.SplitSeconds | python/batch_export_audio.py:214-221 | the pieces' lengths add up to the session's length |
| AudioPlanner.PeriodChunkSeconds | python/batch_export_audio.py:205-221 | a session's chunk lengths add up to its length |
| AudioPlanner.ChunkSeconds | python/batch_export_audio.py:204-221 | the chunks' total length equals the sessions' total length |
| AudioPlanner.LabelsAgree | python/batch_export_audio.py:233-244 | for hours 0..23 the two `get_time_label`s agree and ignore the index; night is exactly before 5 and from 21 on |
| AudioPlanner.ChunkLabelsAgree | python/batch_export_audio.py:241-244 | a chunk's label is never `session-N`: that branch is unreachable |
| AudioPlanner.ClusterCoversInstant | python/batch_export_audio.py:141-161 | every extracted instant lies in some period |
| AudioPlanner.SessionOf | python/batch_export_audio.py:141-192 | every extracted instant lies in some merged session |
| AudioPlanner.ChunkOfSession | python/batch_export_audio.py:204-221 | every moment of a session lies in some chunk |
| AudioPlanner.PlanCoversEveryInstant | python/batch_export_audio.py:403-419 | every instant the lifelog yields lies inside some planned download chunk |
| AudioMonth.DayPlanIsPlan | python/batch_export_audio_month.py:227-239 | the month script plans exactly the single-day script's chunks for the same markdown, and none for missing or empty text |
| AudioMonth.MonthFileNameAgrees | python/batch_export_audio_month.py:261 | both scripts give a chunk the same `{date}-{label}-{HHMM}.ogg` name |
| AudioMonth.MonthPeriodsEmpty | python/batch_export_audio_month.py:84-85 | no period exactly when no timestamp parsed |
| AudioMonth.AttemptEffect | python/batch_export_audio_month.py:260-284 | each chunk adds one to exactly one of skipped, downloaded and errors; skipped exactly when its file exists; a download adds its file |
| AudioMonth.DownloadCounts | python/batch_export_audio_month.py:260-287 | after n chunks the three counters sum to n and the present files grew by the downloads |
| AudioMonth.DownloadChunks | python/batch_export_audio_month.py:260-287 | the download loop computes `DownloadsUpTo` |
| AudioMonth.ProcessSingleDay | python/batch_export_audio_month.py:206-289 | `process_single_day` computes `DayReport` |
| AudioMonth.DayStatus | python/batch_export_audio_month.py:216-248 | the status is `no_lifelog` exactly without markdown, and `no_recordings` exactly when markdown yields no timestamp |
| AudioMonth.DayZeros | python/batch_export_audio_month.py:216-257 | without success all counts are 0; without success or in a dry run nothing is downloaded, skipped or failed and no file appears |
| AudioMonth.DayTotals | python/batch_export_audio_month.py:246-254 | `chunks` is the number of planned chunks and the duration is the sessions' total length |
| AudioMonth.DayDownloads | python/batch_export_audio_month.py:256-287 | a real run's counters sum to `chunks`, and the files grow by the downloads |
| AudioMonth.GenerateDateRange | python/batch_export_audio_month.py:292-299 | the while loop lists the ISO date of every day from start to end |
| AudioMonth.DaysFromShape | python/batch_export_audio_month.py:292-299 | one day per date from start to end inclusive, in order, none when start > end |
| AudioMonth.DaysFromEnds | python/batch_export_audio_month.py:292-299 | when start ≤ end the list begins at start and ends at end |
| SessionSpans.Timed | python/analyze_daily_usage.py:41 | a segment is kept exactly when it is an object with a `startTime` and not a heading; order is kept |
| SessionSpans.TimedFirst | python/analyze_daily_usage.py:41-49 | the first timed segment is the first considered segment of `contents` |
| SessionSpans.TimedLast | python/analyze_daily_usage.py:41-50 | the last timed segment is the last considered segment of `contents` |
| SessionSpans.Stamped | python/analyze_daily_usage.py:56-61 | `pd.to_datetime` gives NaT exactly for the empty string and an instant exactly for a parsed stamp; null and unparseable text give no span |
| SessionSpans.RepairedEnd | python/analyze_daily_usage.py:63-72 | the repaired end is never before the start |
| SessionSpans.SpanOf | python/analyze_daily_usage.py:37-78 | every emitted span whose ends are both times has end ≥ start |
| SessionSpans.SpanOfCases | python/analyze_daily_usage.py:37-78 | a span exists exactly for usable contents with a timed segment whose start and tentative end are a time or NaT (and whose repair, when needed, is readable); it starts at the first timed start; its end is the last timed truthy `endTime` or else `startTime`, replaced by the repair exactly when both are times and it precedes the start |
| SessionSpans.BlankStartKept | python/analyze_daily_usage.py:56-75 | a first timed `startTime` of "" is NaT: the span is kept, starting at NaT, with the tentative end, since no comparison with NaT repairs it |
| SessionSpans.SpanStartsAtFirstTimed | python/analyze_daily_usage.py:49-56 | the span's start is what `pd.to_datetime` gives for the `startTime` of the first considered segment of the lifelog |
| SessionSpans.ExtractSessionSpans | python/analyze_daily_usage.py:25-83 | the loop over lifelogs computes `SessionSpans`; non-list input gives none |
| SessionSpans.SpansAppend | python/analyze_daily_usage.py:32-78 | each lifelog's span is independent of the others, in lifelog order |
| SessionSpans.SpansShape | python/analyze_daily_usage.py:32-78 | at most one span per lifelog, each with end ≥ start when both are times |
| SessionSpans.SpanlessEntryDropped | python/analyze_daily_usage.py:55-81 | a lifelog yielding no span, including by a parse failure, is dropped and the others are unaffected |
| SessionSpans.Gaps | python/analyze_daily_usage.py:192-195 | at most one gap per span but the last, and every gap kept is non-negative (a NaT gap is dropped) |
| SessionSpans.GapsAreAdjacentDistances | python/analyze_daily_usage.py:192-195 | a value is a gap exactly when it is a non-negative distance from one span's end to the next span's start, both times |
| SessionSpans.BinOf | python/analyze_monthly_usage.py:202-206 | a duration lands in exactly the half-open bin [0,1), [1,5), [5,15), [15,30), [30,60) or [60,∞) minutes that contains it; a negative one in none |
| SessionSpans.BinCount | python/analyze_monthly_usage.py:206 | a bin counts at most the spans that have a duration (NaT durations fall in no bin) |
| SessionSpans.BinCountsTotal | python/analyze_monthly_usage.py:206 | for ordered spans the bin counts add up to the number of spans that have a duration |
| SessionSpans.MonthDays | python/analyze_monthly_usage.py:246-254 | a month outside 1..12 or a year outside 2000..now+5 is rejected; otherwise the month's day count |
| SessionSpans.TotalDuration | python/analyze_monthly_usage.py:292-297 | the summed duration of ordered spans, skipping NaN durations, is non-negative |
| SessionSpans.MonthMetrics | python/analyze_monthly_usage.py:277-305 | the day loop computes the metric rows, and `days_with_data_count` is their number |
| SessionSpans.MetricsShape | python/analyze_monthly_usage.py:277-305 | at most one row per day, in day order, each in the month, with at least one session and non-negative time |
| SessionSpans.DayCountsIffSpans | python/analyze_monthly_usage.py:285-303 | a day has a row exactly when its file loaded and yields a span, NaT spans included; `session_count` is its number of spans |
| SessionSpans.AddDaysOrdinal | python/analyze_daily_usage.py:232 | `start + timedelta(n)` is n days later |
| SessionSpans.DaterangeIsDaysFrom | python/analyze_daily_usage.py:230-232 | `daterange` yields every date from start to end inclusive, as the month audio script's range does |
| FileNames.ReplaceUnsafe | python/sync_all_chats.py:76 | each character of `<>:"/\|?*` becomes '-'; the others and the length are kept |
| FileNames.Truncate | python/sync_all_chats.py:77 | the first 100 characters, or the whole text when shorter |
| FileNames.StripLeft | python/sync_all_chats.py:78 | removes exactly the leading run of dots and spaces |
| FileNames.StripRight | python/sync_all_chats.py:78 | removes exactly the trailing run of dots and spaces |
| FileNames.ReplaceUnsafeClean | python/sync_all_chats.py:76 | no unsafe character survives the replacement |
| FileNames.CleanNameSafe | python/sync_all_chats.py:75-79 | the sanitised name of any text is non-empty, at most 100 characters, free of unsafe characters, and neither starts nor ends with '.' or ' ' |
| FileNames.SanitizeFieldSafe | python/sync_all_chats.py:71-79 | the same for any field value, and a missing, null or empty value gives "untitled" |
| FileNames.CleanNameKeepsSafe | python/export_remaining_chats.py:51-55 | a name that is already safe is returned unchanged |
| FileNames.CleanUntitled | python/sync_all_chats.py:79 | "untitled" sanitises to itself |
| FileNames.CleanNameIdempotent | python/export_all_chats.py:50-55 | sanitising twice is sanitising once |
| FileNames.SanitizeFieldIdempotent | python/sync_all_chats.py:71-79 | `sanitize_filename` is idempotent |
| ChatData.Shown | python/export_all_chats.py:126-129 | `get(key, default)` in an f-string: the string, the default when missing, "None" for null |
| ChatData.OrElse | python/sync_all_chats.py:193-195 | `get(key) or default`: the value when truthy, else the default |
| ChatData.Prefix | python/sync_all_chats.py:289 | `s[:n]` is s when at most n long, else its first n characters |
| ChatData.CreatedDate | python/sync_all_chats.py:275-278 | a date exactly when `createdAt` parsed |
| ChatArchive.Routing | python/sync_all_chats.py:256-272 | a chat goes to `insights`, `daily-summaries` or `done-better` exactly when its summary is that series' name, else to `chats`, a null summary included |
| ChatArchive.SyncNameSafe | python/sync_all_chats.py:285-300 | the name part of every sync path is the sanitised summary, a safe name, and "untitled" without a summary |
| ChatArchive.LastPart | python/sync_all_chats.py:164-166 | `split('-')[-1]` is the suffix after the last '-' |
| ChatArchive.IdOfStem | python/sync_all_chats.py:164-168 | a stem yields an ID only when its last part has 8 characters |
| ChatArchive.IdsOfMembers | python/sync_all_chats.py:156-168 | an ID is collected exactly when some stem yields it |
| ChatArchive.ExistingChatIds | python/sync_all_chats.py:150-168 | the loop adding to the set computes `IdsOf` of the stems |
| ChatArchive.LastPartOfJoin | python/sync_all_chats.py:164-166 | the last part of `a-b` is b when b has no '-' |
| ChatArchive.SyncStemRoundTrip | python/sync_all_chats.py:286-300 | a chat's sync file name gives back its 8-character ID, outside dated daily insights |
| ChatArchive.InsightsStemId | python/sync_all_chats.py:51 | a dated daily-insights file name yields "insights", not a chat ID |
| ChatArchive.NewChats | python/sync_all_chats.py:375-378 | a chat is new exactly when `id[:8]` is not archived; order and only input chats are kept |
| ChatArchive.SyncedChatNotNew | python/sync_all_chats.py:375-378 | a chat whose sync file is in the archive is not new |
| ChatArchive.ExportAllPathAsWritten | python/export_all_chats.py:229-255 | `save_chat` of the full export fails exactly on a null summary |
| ChatArchive.ExportAllNullSummaryCrashes | python/export_all_chats.py:230 | a chat whose summary is JSON null gets no path |
| ChatArchive.ExportAllPathAgrees | python/export_all_chats.py:233-255 | the intended path agrees with the script wherever it does not crash; organised it is the remaining-chats path; its name part is safe |
| ChatArchive.FilterChats | python/export_all_chats.py:192-219 | `filter_chats` computes `FilteredChats` |
| ChatArchive.FilteredChatsSpec | python/export_all_chats.py:194-219 | a chat is kept exactly when its summary contains the filter ignoring case (when given) and it has a parsed date within the inclusive bounds (when any is given); nothing is added; no criteria return the input |
| ChatArchive.FilteredChatsAppend | python/export_all_chats.py:192-219 | filtering commutes with concatenation, so the input order is kept |
| ChatArchive.RemainingChats | python/export_remaining_chats.py:231-234 | a chat remains exactly when its summary is not one of the three series names |
| ChatArchive.ExcludedPlusRemaining | python/export_remaining_chats.py:236-238 | excluded plus remaining is the total fetched |
| ChatArchive.ExcludedIffSeries | python/export_remaining_chats.py:38-42 | the excluded chats are exactly those the sync routes to a series directory |
| ChatMarkdown.MessageText | python/export_all_chats.py:156-183 | a message's text is unusable exactly when it is null outside the sync script, which writes null as "" |
| ChatMarkdown.Blocks | python/sync_all_chats.py:217-243 | one block per message |
| ChatMarkdown.FormatChatAsMarkdown | python/sync_all_chats.py:190-248 | the `+=` loop computes `Markdown` |
| ChatMarkdown.MarkdownSeparators | python/sync_all_chats.py:245-246 | between message i and message i+1 there is exactly one `---` separator |
| ChatMarkdown.MarkdownLength | python/sync_all_chats.py:217-246 | the text is the header, the blocks and n−1 separators for n messages |
| ChatMarkdown.JoinWithLength | python/export_all_chats.py:185-187 | joining n parts adds exactly n−1 separators |
| ChatMarkdown.MarkdownEndsWithLastBlock | python/export_all_chats.py:185-187 | the text ends with the last message's block, with no separator after it |
| ChatMarkdown.HeadingIcon | python/sync_all_chats.py:234-237 | a message heading is 👤 exactly for role `user`, else 🤖 |
| ChatMarkdown.RendersIffNoNullText | python/export_all_chats.py:154-183 | the export scripts render exactly the chats without a null message text; the sync renders null as empty |
| ChatMarkdown.HeaderDefaults | python/export_remaining_chats.py:120-122 | a null or empty summary renders as "Untitled Chat" and visibility as "unknown"; the full export prints "None" for null |
| ChatAnalysis.Texts | python/analyze_chats.py:140 | `msg.get("text", "")` for each message |
| ChatAnalysis.AnalyzeChatMetadata | python/analyze_chats.py:113-168 | the message loop computes `ChatMetadata` |
| ChatAnalysis.RoleCounts | python/analyze_chats.py:137-164 | user + assistant ≤ messages; each count is zero exactly when no message has that role |
| ChatAnalysis.FirstUserMessage | python/analyze_chats.py:148-166 | the first user message cut to 200 characters is a prefix of the full one; both are "" without a user message |
| ChatAnalysis.MetadataFails | python/analyze_chats.py:148-165 | the metadata fails exactly when the first user text is null, where `[:200]` raises |
| ChatAnalysis.AssistantLength | python/analyze_chats.py:150-153 | the length of the first assistant text, 0 when there is none or it is null |
| ChatAnalysis.AnalyzePatterns | python/analyze_chats.py:185-288 | the grouping loops compute `PatternsOf` |
| ChatAnalysis.SeriesIff | python/analyze_chats.py:238-244 | a summary is a series exactly when at least two chats share it, and it counts them |
| ChatAnalysis.MultiChatDateIff | python/analyze_chats.py:201-209 | a date has several chats exactly when two chats were created that day |
| ChatAnalysis.DatedOrdinals | python/analyze_chats.py:251 | at most one date per chat |
| ChatAnalysis.Diffs | python/analyze_chats.py:257 | one difference per adjacent pair |
| ChatAnalysis.DiffsTelescope | python/analyze_chats.py:257-259 | the differences sum to last minus first |
| ChatAnalysis.SortedEnds | python/analyze_chats.py:253-254 | the sorted dates lie between the first and the last |
| ChatAnalysis.CadenceBySpan | python/analyze_chats.py:251-265 | daily exactly when the average gap is at most 1.5 days, weekly when it is above 1.5 and at most 7.5, occasional otherwise |
| ChatAnalysis.RegularSeries | python/analyze_chats.py:256-263 | one chat per day is daily, one per week is weekly |
| Insights.InsightChats | python/batch_export_insights.py:101-103 | exactly the chats whose summary is "Daily insights", in order |
| Insights.InsightsAreTheInsightsSeries | python/batch_export_insights.py:102-103 | these are the chats the sync routes to `insights` |
| Insights.FirstAssistantText | python/batch_export_insights.py:142-149 | the loop with `break` computes `AssistantText` |
| Insights.AssistantTextIsFirst | python/batch_export_insights.py:145-149 | the text of the first assistant message, "" when there is none |
| Insights.ExtractInsight | python/batch_export_insights.py:135-139 | extraction fails exactly on an unparseable `createdAt` |
| Insights.ExtractedDate | python/batch_export_insights.py:135-153 | `date_str` is "unknown" exactly when `createdAt` is missing or empty, else the ISO date |
| Insights.FilterByDateRange | python/batch_export_insights.py:206-225 | keeps exactly the dated insights within both bounds, in order |
| Insights.KeyOfDated | python/batch_export_insights.py:318 | a dated insight's sort key is never below `date.min`'s |
| Insights.UndatedFirst | python/batch_export_insights.py:318 | after the sort every undated insight precedes every insight dated after 0001-01-01 |
| Insights.SaveInsight | python/batch_export_insights.py:160-203 | nothing is written for an "unknown" date; any path returned is `{date}-daily-insights.md` |
| Insights.ExistingFileCountedAsSaved | python/batch_export_insights.py:179-182 | an insight whose file exists is counted as saved |
| Insights.TallyStopped | python/batch_export_insights.py:321-323 | once `save_insight` raises, the export stops |
| Insights.ExportInsights | python/batch_export_insights.py:321-331 | the corrected counting loop computes `TallyUpTo` |
| Insights.TallyCounts | python/batch_export_insights.py:321-331 | for the corrected counting loop: after n insights the counters sum to n and the files grew by the saved ones |
| Insights.TallyAsWrittenNeverSkips | python/batch_export_insights.py:321-331 | as written, when no file path contains "Skipping", `skipped_count` stays 0 and every insight handled is counted as saved or as an error, existing files included |
| Insights.StepOutcomes | python/batch_export_insights.py:321-331 | an unknown date is an error, an existing file is a skip, and the export stops exactly on a null text for a new file |
| ArchiveIndex.SearchDate | python/generate_index.py:95 | `re.search` finds the first `DDDD-DD-DD` at or after a position, or reports none |
| ArchiveIndex.ExtractDate | python/generate_index.py:92-96 | the leftmost 10-character date of the name, or none exactly when there is none |
| ArchiveIndex.ExtractLeadingDate | python/generate_index.py:92-96 | a name that starts with a date yields that date |
| ArchiveIndex.ScanCategory | python/generate_index.py:64-83 | each item is a listed file with its extracted date; nested categories skip dot files |
| ArchiveIndex.CatalogSorted | python/generate_index.py:85-87 | each category is a permutation ordered by date, undated items first |
| ArchiveIndex.TotalFiles | python/generate_index.py:103 | the total is the sum of the category sizes |
| ArchiveIndex.CountCategory | python/generate_index.py:118-122 | the loop over one category adds its items to the month counts |
| ArchiveIndex.CountMonths | python/generate_index.py:116-122 | the month counts are the counts of `date[:7]` over the catalog |
| ArchiveIndex.MonthCountsTotal | python/generate_index.py:116-122 | the month counts add up to the number of dated items |
| ArchiveIndex.MonthsOf | python/generate_index.py:421 | one month per dated item |
| ArchiveIndex.MonthsOfCounted | python/generate_index.py:421 | a month is listed exactly when it is counted |
| ArchiveIndex.NewestFirstSpec | python/generate_index.py:157 | `sorted(..., reverse=True)` of the keys lists each once, the greatest first |
| ArchiveIndex.MonthField | python/generate_index.py:158 | `%m` reads a month 1..12 or fails |
| ArchiveIndex.DayField | python/generate_index.py:293 | `%d` reads a day 1..31 or fails |
| ArchiveIndex.ParseMonth | python/generate_index.py:158 | `strptime(s, "%Y-%m")` gives a year ≥ 1 and a month 1..12, or raises |
| ArchiveIndex.ParseDay | python/generate_index.py:293 | `strptime(d, "%Y-%m-%d")` succeeds only on a ten-character `DDDD-DD-DD` key |
| ArchiveIndex.KeyParses | python/generate_index.py:293 | on a `DDDD-DD-DD` key, the month reads back exactly when the year is not 0 and the month is 01..12, and the date reads back exactly when it is a calendar date, as that date |
| ArchiveIndex.DateKeyShape | python/generate_index.py:92-96 | a date taken from a file name has the `DDDD-DD-DD` shape |
| ArchiveIndex.MasterStops | python/generate_index.py:157-158 | the master index raises exactly when `strptime` rejects a counted month |
| ArchiveIndex.MonthListing | python/generate_index.py:157-158 | when the master index is written, it lists each counted month once, newest first |
| ArchiveIndex.MasterRaises | python/generate_index.py:157-158 | for names read from files, the master index raises exactly when a name's date has year 0000 or a month outside 01..12 |
| ArchiveIndex.DatesOf | python/generate_index.py:106-108 | one date per dated item |
| ArchiveIndex.DatesOfMembers | python/generate_index.py:106-108 | the dates are exactly those of dated items |
| ArchiveIndex.MinDate | python/generate_index.py:111 | `min` is one of the dates |
| ArchiveIndex.MaxDate | python/generate_index.py:112 | `max` is one of the dates |
| ArchiveIndex.MinDateLeast | python/generate_index.py:111 | no date precedes the minimum |
| ArchiveIndex.MaxDateGreatest | python/generate_index.py:112 | no date follows the maximum |
| ArchiveIndex.DateRangeSpec | python/generate_index.py:105-114 | "Unknown" twice without dated items; else earliest ≤ latest, both dates of the catalog, bounding all |
| ArchiveIndex.CollectMonth | python/generate_index.py:244-249 | the loops collect, per category in order, exactly the items dated in the month |
| ArchiveIndex.MonthDaysRead | python/generate_index.py:292-293 | every listed day reads back exactly when the date of every item of the month does |
| ArchiveIndex.MonthlyIndexSpec | python/generate_index.py:241-293 | `generate_monthly_index` raises exactly when the month or the date of one of its items does not read back; it returns without writing exactly when the month reads back and no item is in it; a written page counts the month's items and lists their dates once each, newest first |
| ArchiveIndex.MonthlyIndexDays | python/generate_index.py:254-259 | on a written page, its days are exactly the dates of the month's items |
| ArchiveIndex.InMonthIsMonthKey | python/generate_index.py:248 | `startswith(year_month)` and `date[:7] == year_month` agree for a seven-character month |
| ArchiveIndex.CountedMonth | python/generate_index.py:421-425 | every counted month is seven characters long and has an item dated in it |
| ArchiveIndex.MasterAgreesWithMonthly | python/generate_index.py:241-293 | for names read from files and a written master index, the index of a listed month raises exactly when one of its items carries a date that is not a calendar date; otherwise it is written and its total is the master's count |
| ArchiveIndex.BuildTypeIndex | python/generate_index.py:321-361 | no type index for an empty category; it raises when a month or date of a dated item does not read back; else the total, the grouping by month, and the months newest first |
| ArchiveIndex.TypeIndexRaises | python/generate_index.py:321-361 | for names read from files, a type index is skipped exactly for an empty category and raises exactly when an item carries a date that is not a calendar date |
| ArchiveIndex.TypeIndexGroups | python/generate_index.py:329-334 | each dated item is in its month's group, each group holds only items of its month, and the groups add up to the dated items |
| ArchiveIndex.MonthThirteenStopsMaster | python/generate_index.py:157-158 | a file named `2025-13-01-notes.md` makes the master index raise |
| ArchiveIndex.YearZeroStopsMaster | python/generate_index.py:157-158 | a file named `0000-01-05-x.md` makes the master index raise |
| ArchiveIndex.FebruaryThirtiethPassesMaster | python/generate_index.py:157-158 | a file named `2025-02-30-call.md` does not stop the master index |
| ArchiveIndex.FebruaryThirtiethStopsType | python/generate_index.py:360-361 | a file named `2025-02-30-call.md` makes its type index raise |
| ArchiveIndex.FebruaryThirtiethStopsMonth | python/generate_index.py:292-293 | a file named `2025-02-30-call.md` makes the index of 2025-02 raise |
| ArchiveIndex.FebruaryThirtiethKey | python/generate_index.py:293 | `2025-02-30` has a month that reads back and is not a calendar date |
| LifelogCoverage.Before | python/verify_lifelog_coverage.py:76-79 | comparing a naive with an aware datetime raises; otherwise `<` on the time line |
| LifelogCoverage.AnalyzeLifelogs | python/verify_lifelog_coverage.py:56-85 | the loop, with both comparisons before counting, computes `Analysis` |
| LifelogCoverage.FirstAware | python/verify_lifelog_coverage.py:63-79 | no awareness exactly when no start time parsed |
| LifelogCoverage.AcceptedPlusRejected | python/verify_lifelog_coverage.py:63-83 | every lifelog is either dated or undated |
| LifelogCoverage.StepCases | python/verify_lifelog_coverage.py:63-83 | one lifelog is either listed as undated with nothing else changed, or counted under its date with earliest and latest updated |
| LifelogCoverage.Tick | python/verify_lifelog_coverage.py:74 | `by_date[date] += 1` raises that date's count by one and leaves the others |
| LifelogCoverage.StepSplit | python/verify_lifelog_coverage.py:63-83 | each step keeps `undated` and `by_date` equal to the undated ids and the date counts of the dated lifelogs |
| LifelogCoverage.StepBounds | python/verify_lifelog_coverage.py:76-79 | each step keeps earliest and latest bounding every dated lifelog |
| LifelogCoverage.AnalysisSummarises | python/verify_lifelog_coverage.py:63-83 | the loop's state always summarises the lifelogs read so far |
| LifelogCoverage.AnalysisSplits | python/verify_lifelog_coverage.py:63-83 | `undated` lists the undated ids in order and `by_date` counts the dated lifelogs per date |
| LifelogCoverage.UndatedPlusDated | python/verify_lifelog_coverage.py:63-83 | the undated count plus the `by_date` total is the number of lifelogs |
| LifelogCoverage.AcceptedNonEmpty | python/verify_lifelog_coverage.py:63-79 | some lifelog is dated exactly when some start time parsed |
| LifelogCoverage.EarliestLatest | python/verify_lifelog_coverage.py:60-79 | earliest and latest are none exactly when no lifelog is dated; else earliest ≤ latest and they bound every dated lifelog |
| LifelogCoverage.CollectOutside | python/verify_lifelog_coverage.py:126-140 | the loop collects exactly the dates strictly before 2025-02-27 or after 2025-12-05, and `total_outside` sums their counts |
| LifelogCoverage.OutsideCounts | python/verify_lifelog_coverage.py:126-132 | the out-of-range counts are the date counts of the dated lifelogs outside the range |
| LifelogCoverage.OutsideSum | python/verify_lifelog_coverage.py:140 | `total_outside` is the number of dated lifelogs outside the range |
| LifelogCoverage.MissingCount | python/verify_lifelog_coverage.py:160 | total missing is the number of lifelogs not both dated and inside the range, and zero exactly when all are |
| LifelogCoverage.MixedAwarenessCountedTwice | python/verify_lifelog_coverage.py:71-83 | as written, an aware then a naive start on one out-of-range day report three of two lifelogs missing |
| LifelogCoverage.AsWrittenCountsEveryParsed | python/verify_lifelog_coverage.py:71-83 | as written, `by_date` counts every lifelog whose start time parsed, whether or not its comparison raised |
| LifelogCoverage.AsWrittenDiffersOnlyInCounts | python/verify_lifelog_coverage.py:71-83 | the loop as written ends with the same undated list, earliest and latest as the corrected one, and differs only in `by_date` |
| LifelogCoverage.StepAsWrittenAgrees | python/verify_lifelog_coverage.py:71-83 | one step of either loop, from ends both unset or both set with one awareness, leaves the same ends and undated list |

## Left out

- Network I/O is not modelled: fetching chats, lifelogs and insights, downloading audio, retries and sleeps. The chunks the audio endpoint serves are a parameter.
- The filesystem is not modelled beyond sets of paths. Existing files and failing writes are parameters. Reading `contents.json` and markdown files is not modelled: the loaded value is a parameter.
- The contents scan of `get_existing_chat_ids` (reading `Chat ID:` out of daily-insights files) is left out because it reads file contents.
- Markdown rendering is modelled as whole blocks. The exact text of a header or block is not modelled beyond the defaults, icons and separators.
- `strftime` renderings other than `%Y-%m-%d` and `%Y-%m` are carried as opaque strings.
- `datetime.fromisoformat` is not modelled: its result is the `Stamp` parameter. Time zones are not modelled either: instants are local wall-clock seconds, except for awareness in the coverage check.
- Sub-second precision is left out: instants are whole seconds.
- The scripts' float divisions (`gap / 60 < minutes`, `/ 3600 <= hours`, the 1.5/7.5-day averages) are modelled as the equivalent integer comparisons. Statistics printed as floats (means, medians, standard deviations, ratios, hours) are left out.
- Plotting, hourly activity, the busiest hour and day extremes are left out.
- Report text and printing are left out, including the first-10 truncation of listings.
- The recent-content section of the master index and the per-day, per-category listings of the monthly index are left out: the first needs the clock, the second is report text.
- `\d` and `\s` are ASCII only. Python's Unicode digits and spaces are not modelled.
- Sort stability is not proved. `list.sort` is modelled by an insertion sort proved to give a permutation ordered by the key.
- SessionSpans.MonthDays: the year bound takes the current year as a parameter, because `datetime.now()` is not modelled.
- SessionSpans.TotalDuration: hours are kept in seconds, because the division by 3600 is float output.
- ArchiveIndex.CollectMonth: a category with no items of the month keeps an empty list rather than no entry. No property depends on the difference.
- ArchiveIndex.ParseDay: decides `strptime(..., "%Y-%m-%d")` only for the ten-character `DDDD-DD-DD` keys that file names yield; other text is rejected outright, though `strptime` accepts forms such as `2025-1-5`. Dates in the catalog never take those forms.
- The `strptime` of the recent-content section (python/generate_index.py:205) is not modelled, as that section needs the clock. The `strptime(month, "%Y-%m")` after each monthly index in the all-months run (python/generate_index.py:426) is not modelled separately: it reads the same months as the master index and raises on the same ones.
- ArchiveIndex.BuildTypeIndex: checks every dated item's month and date before grouping, rather than month by month while writing, so which item raises first is not modelled; whether the page raises is the same.
- AudioPlanner.MergeExact: is stated for a gap of 0 or more. `--min-gap` is a plain `type=int` (python/batch_export_audio.py:345-347), and with a negative gap a period can open a session while an earlier one is still running, so the open session's end is then not the latest earlier end and the characterisation does not hold. `Merge`, `MergeShape` and `MergeCovers` take any gap.
- ChatData.Chat: has no case for a JSON null `id`, so it is read as a missing one, although `chat.get("id", default)` gives `None` for it rather than the default.
- ArchiveIndex.ScanCategory: the directory walk is a parameter list of file names, so the recursive glob and file tests are not modelled.
- LifelogCoverage.CollectOutside: `outside_range` is a map, so its print order (sorted by date) is not modelled.
- Text.Lower: only ASCII capitals are folded. Python's `lower()` also folds non-ASCII letters ("É" to "é"), and for "İ" it changes the length. Unicode case tables are not modelled.
- ChatArchive.FilterChats: the summary filter compares with the ASCII fold of `Text.Lower`. A summary "ÉTÉ recap" with the filter "été" is kept by the script and dropped by the model.
- ChatArchive.FilteredChatsSpec: states the filter in terms of the same ASCII fold, so it is weaker than the script's filter on non-ASCII text, as in the line above.
- AudioPlanner.ExtractRecordingPeriods: when some timestamps are naive and others aware, `sorted(set(...))` raises `TypeError` in the script; the model has no time zones and plans chunks for them. AudioPlanner.ExtractTimestamps and AudioPlanner.GatherTimestamps gather such stamps without the distinction too.
- SessionSpans.Stamped: only the empty string is modelled as NaT. Other text that `pd.to_datetime` reads as NaT, such as "NaT" or "nat", is modelled as unparseable, which drops the lifelog.
- Insights.ExportInsights: models the corrected counting loop, where a file that already exists counts as skipped. The loop as written is `Insights.TallyUpToAsWritten`, and `Insights.TallyAsWrittenNeverSkips` states what it counts.
- Insights.TallyCounts: is about the corrected counting loop. The loop as written counts an existing file as saved (second finding below).
- The analytics of `analyze_daily_usage.py` that compute means, medians and hourly buckets are left out (float output). The spans, gaps and date range they consume are modelled.

## Findings

| source | as written | input that shows it | evidently intended | confidence | as-written member | corrected member |
|---|---|---|---|---|---|---|
| python/export_all_chats.py:229-255 | `summary = chat.get("summary", "untitled")` passes a JSON null to a `sanitize_filename` that has no `None` guard, so `re.sub` raises a `TypeError` outside any `try` | a chat whose `summary` is null | treat a null summary as "untitled", as the other two scripts do | high, not executed | ChatArchive.ExportAllNullSummaryCrashes | ChatArchive.ExportAllPathAgrees |
| python/batch_export_insights.py:179-182 | `save_insight` returns the path of an existing file, and the counter loop counts any truthy result without "Skipping" in it as saved, so `skipped_count` never rises | an insight whose file `out/2025-11-19-daily-insights.md` already exists | count an existing file as skipped | high, not executed | Insights.ExistingFileCountedAsSaved | Insights.StepOutcomes |
| python/verify_lifelog_coverage.py:71-83 | `by_date[date_str] += 1` runs before the comparisons; when a comparison raises (naive vs aware), the lifelog is also appended to `undated`, so it is counted twice | an aware start time, then a naive one, both on 2025-01-01 | count each lifelog once: under its date or as undated | high, not executed | LifelogCoverage.MixedAwarenessCountedTwice | LifelogCoverage.UndatedPlusDated |
