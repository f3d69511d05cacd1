// The month audio exporter's own parts: the per-day driver
// `process_single_day` with its counters, the month script's chunk file
// names, and `generate_date_range`. Its planner (extraction, clustering,
// merging, chunking) is the one in `AudioPlanner`: the month script's copy
// differs only in taking markdown text alone and in its label function,
// and both differences are proved harmless here.
module AudioMonth {
  import opened Common
  import opened Calendar
  import opened Text
  import opened AudioPlanner

  // ----- The plan of one day -----

  /** `extract_recording_periods` of the month script, on what
      `load_lifelog_markdown` returned (its `None` is `Null`). */
  function MonthPeriods(markdown: Field): seq<Period> {
    Cluster(SortedDistinct(MonthTimestamps(markdown)))
  }

  /** The chunks `process_single_day` plans for a day's markdown. */
  function DayPlan(markdown: Field): seq<Chunk> {
    Chunks(Merge(MonthPeriods(markdown), 60 * MinGapMinutes), MaxDurationHours)
  }

  /** The month script plans exactly what the single-day script plans for
      the same markdown, and nothing for a missing or empty text. */
  lemma DayPlanIsPlan(markdown: Field)
    ensures markdown.Truthy() ==> DayPlan(markdown) == Plan(Markdown(markdown.s), MinGapMinutes)
    ensures !markdown.Truthy() ==> MonthPeriods(markdown) == [] && DayPlan(markdown) == []
  {
    if !markdown.Truthy() {
      assert SortedDistinct([]) == [];
    }
  }

  /** `get_time_label` of the month script applied to a chunk's start. */
  function MonthChunkLabel(c: Chunk): DayPart {
    MonthLabel(HourOf(c.start))
  }

  /** The file name the month script gives a chunk: `{date}-{label}-{HHMM}.ogg`. */
  function MonthFileName(dateStr: string, c: Chunk): string {
    dateStr + "-" + MonthChunkLabel(c).Text() + "-" + Padded(HourOf(c.start), 2) + Padded(MinuteOf(c.start), 2) + ".ogg"
  }

  /** Both scripts name a chunk's file alike, so a day exported by either is
      recognised as present by the other. */
  lemma MonthFileNameAgrees(dateStr: string, c: Chunk)
    ensures MonthFileName(dateStr, c) == ChunkFileName(dateStr, c)
  {
    ChunkLabelsAgree(c.start, c.index);
  }

  /** Where a chunk is stored below the output directory:
      `{YYYY-MM}/{YYYY-MM-DD}/{file name}`. */
  function ChunkPath(d: ValidDate, c: Chunk): string {
    IsoMonth(d) + "/" + IsoDate(d) + "/" + MonthFileName(IsoDate(d), c)
  }

  // ----- The download loop -----

  /** The counters of the `stats` dict during the download loop, and the
      files present in the output tree. */
  datatype Downloads = Downloads(downloaded: nat, skipped: nat, errors: nat, present: set<string>)

  /** One chunk of the loop: a file already present is skipped; otherwise
      the download is tried, and it succeeds (writing the file) exactly when
      the server delivers the chunk's span. */
  function Attempt(st: Downloads, path: string, span: Period, served: set<Period>): Downloads {
    if path in st.present then st.(skipped := st.skipped + 1)
    else if span in served then st.(downloaded := st.downloaded + 1, present := st.present + {path})
    else st.(errors := st.errors + 1)
  }

  /** The state after the loop has handled the first `n` chunks. */
  function DownloadsUpTo(d: ValidDate, cs: seq<Chunk>, n: nat, present0: set<string>, served: set<Period>): Downloads
    requires n <= |cs|
  {
    if n == 0 then Downloads(0, 0, 0, present0)
    else Attempt(DownloadsUpTo(d, cs, n - 1, present0, served),
                 ChunkPath(d, cs[n - 1]), Period(cs[n - 1].start, cs[n - 1].end), served)
  }

  lemma DownloadsUpToUnfold(d: ValidDate, cs: seq<Chunk>, k: nat, n: nat, present0: set<string>, served: set<Period>)
    requires n == k + 1 <= |cs|
    ensures DownloadsUpTo(d, cs, n, present0, served)
      == Attempt(DownloadsUpTo(d, cs, k, present0, served), ChunkPath(d, cs[k]), Period(cs[k].start, cs[k].end), served)
  {
  }

  /** What one attempt does to the counters and the file set: exactly one
      counter grows by one, and only a download adds a file, a new one. */
  lemma AttemptEffect(st: Downloads, path: string, span: Period, served: set<Period>)
    ensures var r := Attempt(st, path, span, served);
      r.downloaded + r.skipped + r.errors == st.downloaded + st.skipped + st.errors + 1
      && (r.present == st.present || (path !in st.present && r.present == st.present + {path}))
      && r.downloaded - st.downloaded == |r.present| - |st.present|
      && (r.skipped == st.skipped + 1 <==> path in st.present)
  {
  }

  /** Every chunk handled increments exactly one of `skipped`, `downloaded`
      and `errors`; the files present only grow, and each download adds one
      file that was not there before. */
  lemma {:induction false} DownloadCounts(d: ValidDate, cs: seq<Chunk>, n: nat, present0: set<string>, served: set<Period>)
    requires n <= |cs|
    ensures var st := DownloadsUpTo(d, cs, n, present0, served);
      st.downloaded + st.skipped + st.errors == n
      && present0 <= st.present
      && |st.present| == |present0| + st.downloaded
  {
    if n > 0 {
      var k := n - 1;
      DownloadCounts(d, cs, k, present0, served);
      DownloadsUpToUnfold(d, cs, k, n, present0, served);
      AttemptEffect(DownloadsUpTo(d, cs, k, present0, served), ChunkPath(d, cs[k]), Period(cs[k].start, cs[k].end), served);
    }
  }

  // ----- process_single_day -----

  datatype Status = NoLifelog | NoRecordings | Success

  /** The `stats` dict `process_single_day` returns. The early returns have
      no `duration_hours` key; where present it is kept here in seconds. */
  datatype DayStats = DayStats(date: string, status: Status, chunks: nat, downloaded: nat,
                               skipped: nat, errors: nat, durationSeconds: Option<int>)

  /** What `process_single_day` reports for date `d` and leaves on disk,
      given the lifelog markdown, the files already present and the spans the
      server delivers. */
  function DayReport(d: ValidDate, markdown: Field, dryRun: bool, present0: set<string>, served: set<Period>): (DayStats, set<string>) {
    var date := IsoDate(d);
    if !markdown.Truthy() then (DayStats(date, NoLifelog, 0, 0, 0, 0, None), present0)
    else if MonthPeriods(markdown) == [] then (DayStats(date, NoRecordings, 0, 0, 0, 0, None), present0)
    else
      var plan := DayPlan(markdown);
      var duration := Some(TotalSeconds(plan));
      if dryRun then (DayStats(date, Success, |plan|, 0, 0, 0, duration), present0)
      else
        var st := DownloadsUpTo(d, plan, |plan|, present0, served);
        (DayStats(date, Success, |plan|, st.downloaded, st.skipped, st.errors, duration), st.present)
  }

  /** `process_single_day`: plan the day, then walk its chunks, skipping
      files already present and counting each download's outcome. */
  method ProcessSingleDay(d: ValidDate, markdown: Field, dryRun: bool, present0: set<string>, served: set<Period>)
    returns (stats: DayStats, present: set<string>)
    ensures (stats, present) == DayReport(d, markdown, dryRun, present0, served)
  {
    var date := IsoDate(d);
    present := present0;
    if !markdown.Truthy() {
      stats := DayStats(date, NoLifelog, 0, 0, 0, 0, None);
      return;
    }
    var periods := ExtractRecordingPeriods(Markdown(markdown.s));
    if periods == [] {
      stats := DayStats(date, NoRecordings, 0, 0, 0, 0, None);
      return;
    }
    var merged := MergeClosePeriods(periods, MinGapMinutes);
    var chunks := ChunkPeriodsByDuration(merged, MaxDurationHours);
    assert chunks == DayPlan(markdown);
    stats := DayStats(date, Success, |chunks|, 0, 0, 0, Some(TotalSeconds(chunks)));
    if dryRun {
      return;
    }
    var st := DownloadChunks(d, chunks, present0, served);
    stats := stats.(downloaded := st.downloaded, skipped := st.skipped, errors := st.errors);
    present := st.present;
  }

  /** The loop of `process_single_day` over the day's chunks: skip a file
      already present, otherwise download it or count an error. */
  method DownloadChunks(d: ValidDate, chunks: seq<Chunk>, present0: set<string>, served: set<Period>)
    returns (st: Downloads)
    ensures st == DownloadsUpTo(d, chunks, |chunks|, present0, served)
  {
    var date := IsoDate(d);
    var downloaded, skipped, errors, present := 0, 0, 0, present0;
    var i := 0;
    while i < |chunks|
      invariant 0 <= i <= |chunks|
      invariant Downloads(downloaded, skipped, errors, present) == DownloadsUpTo(d, chunks, i, present0, served)
    {
      var c := chunks[i];
      var path := IsoMonth(d) + "/" + date + "/" + MonthFileName(date, c);
      var next := i + 1;
      DownloadsUpToUnfold(d, chunks, i, next, present0, served);
      if path in present {
        skipped := skipped + 1;
      } else if Period(c.start, c.end) in served {
        downloaded := downloaded + 1;
        present := present + {path};
      } else {
        errors := errors + 1;
      }
      i := next;
    }
    st := Downloads(downloaded, skipped, errors, present);
  }

  /** A day has no recordings exactly when its markdown yields no timestamp. */
  lemma MonthPeriodsEmpty(markdown: Field)
    ensures MonthPeriods(markdown) == [] <==> MonthTimestamps(markdown) == []
  {
    var ts := MonthTimestamps(markdown);
    if ts != [] {
      var sorted := SortedDistinct(ts);
      assert ts[0] in sorted;
      ClusterShape(sorted);
    } else {
      assert SortedDistinct(ts) == [];
    }
  }

  /** The status of a day: no lifelog for a missing or empty markdown, no
      recordings when it holds no timestamp, success otherwise. */
  lemma DayStatus(d: ValidDate, markdown: Field, dryRun: bool, present0: set<string>, served: set<Period>)
    ensures var stats := DayReport(d, markdown, dryRun, present0, served).0;
      && stats.date == IsoDate(d)
      && (stats.status == NoLifelog <==> !markdown.Truthy())
      && (stats.status == NoRecordings <==> markdown.Truthy() && MonthTimestamps(markdown) == [])
  {
    MonthPeriodsEmpty(markdown);
  }

  /** All counters are zero and no file is written unless the day has
      recordings and this is not a dry run. */
  lemma DayZeros(d: ValidDate, markdown: Field, dryRun: bool, present0: set<string>, served: set<Period>)
    ensures var (stats, present) := DayReport(d, markdown, dryRun, present0, served);
      (stats.status != Success ==> stats.chunks == 0 && stats.durationSeconds == None)
      && (stats.status != Success || dryRun ==>
            stats.downloaded == 0 && stats.skipped == 0 && stats.errors == 0 && present == present0)
  {
  }

  /** On success `chunks` is the size of the plan and the duration is the
      summed length of the merged sessions. */
  lemma DayTotals(d: ValidDate, markdown: Field, dryRun: bool, present0: set<string>, served: set<Period>)
    ensures var stats := DayReport(d, markdown, dryRun, present0, served).0;
      stats.status == Success ==>
        var sessions := Merge(MonthPeriods(markdown), 60 * MinGapMinutes);
        stats.chunks == |DayPlan(markdown)|
        && stats.durationSeconds == Some(PeriodSecondsUpTo(sessions, |sessions|))
  {
    var sessions := Merge(MonthPeriods(markdown), 60 * MinGapMinutes);
    ChunkSeconds(sessions, |sessions|, 3600 * MaxDurationHours);
  }

  /** When downloading, every planned chunk is counted exactly once, and files
      are only added, one per download. */
  lemma DayDownloads(d: ValidDate, markdown: Field, dryRun: bool, present0: set<string>, served: set<Period>)
    ensures var (stats, present) := DayReport(d, markdown, dryRun, present0, served);
      stats.status == Success && !dryRun ==>
        stats.downloaded + stats.skipped + stats.errors == stats.chunks
        && present0 <= present && |present| == |present0| + stats.downloaded
  {
    var plan := DayPlan(markdown);
    DownloadCounts(d, plan, |plan|, present0, served);
  }

  // ----- generate_date_range -----

  /** The dates from `cur` to `end`, inclusive, one day apart. */
  function DaysFrom(cur: ValidDate, end: ValidDate): seq<ValidDate>
    decreases Ordinal(end) - Ordinal(cur)
  {
    if Ordinal(cur) <= Ordinal(end) then [cur] + DaysFrom(NextDay(cur), end) else []
  }

  function IsoDates(ds: seq<ValidDate>): (r: seq<string>)
    ensures |r| == |ds|
  {
    if ds == [] then [] else [IsoDate(ds[0])] + IsoDates(ds[1..])
  }

  /** `generate_date_range`. */
  method GenerateDateRange(start: ValidDate, end: ValidDate) returns (dates: seq<string>)
    ensures dates == IsoDates(DaysFrom(start, end))
  {
    dates := [];
    var current := start;
    while Ordinal(current) <= Ordinal(end)
      invariant dates + IsoDates(DaysFrom(current, end)) == IsoDates(DaysFrom(start, end))
      decreases Ordinal(end) - Ordinal(current)
    {
      GenerateStep(dates, current, end);
      dates := dates + [IsoDate(current)];
      current := NextDay(current);
    }
    assert DaysFrom(current, end) == [];
  }

  /** One turn of the `generate_date_range` loop keeps the dates listed so
      far followed by the rest of the range equal to the whole range. */
  lemma GenerateStep(dates: seq<string>, cur: ValidDate, end: ValidDate)
    requires Ordinal(cur) <= Ordinal(end)
    ensures (dates + [IsoDate(cur)]) + IsoDates(DaysFrom(NextDay(cur), end)) == dates + IsoDates(DaysFrom(cur, end))
  {
    IsoDatesStep(cur, end);
    AppendAssoc(dates, [IsoDate(cur)], IsoDates(DaysFrom(NextDay(cur), end)));
  }

  /** The range from a day not after `end` is that day and the range from
      the next. */
  lemma IsoDatesStep(cur: ValidDate, end: ValidDate)
    requires Ordinal(cur) <= Ordinal(end)
    ensures IsoDates(DaysFrom(cur, end)) == [IsoDate(cur)] + IsoDates(DaysFrom(NextDay(cur), end))
  {
    var rest := DaysFrom(NextDay(cur), end);
    assert DaysFrom(cur, end) == [cur] + rest;
    assert ([cur] + rest)[1..] == rest;
  }

  /** The range has one date per day from `start` to `end` inclusive, in
      increasing order with no day skipped, and is empty when `start` is
      after `end`. */
  lemma {:induction false} DaysFromShape(cur: ValidDate, end: ValidDate)
    ensures |DaysFrom(cur, end)| == if Ordinal(cur) <= Ordinal(end) then Ordinal(end) - Ordinal(cur) + 1 else 0
    ensures forall i :: 0 <= i < |DaysFrom(cur, end)| ==> Ordinal(DaysFrom(cur, end)[i]) == Ordinal(cur) + i
    decreases Ordinal(end) - Ordinal(cur)
  {
    if Ordinal(cur) <= Ordinal(end) {
      var next := NextDay(cur);
      DaysFromShape(next, end);
      var r := DaysFrom(cur, end);
      assert r == [cur] + DaysFrom(next, end);
      forall i | 0 <= i < |r|
        ensures Ordinal(r[i]) == Ordinal(cur) + i
      {
        if i > 0 {
          assert r[i] == DaysFrom(next, end)[i - 1];
        }
      }
    }
  }

  /** The first date of a non-empty range is `start` and the last is `end`. */
  lemma DaysFromEnds(start: ValidDate, end: ValidDate)
    requires Ordinal(start) <= Ordinal(end)
    ensures var r := DaysFrom(start, end);
      |r| > 0 && r[0] == start && r[|r| - 1] == end
  {
    DaysFromShape(start, end);
    var r := DaysFrom(start, end);
    OrdinalInjective(r[|r| - 1], end);
  }
}
