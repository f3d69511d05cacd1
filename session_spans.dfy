// Recording-session spans for the usage analytics: the daily and the
// monthly analysis scripts share `extract_session_spans`, which turns each
// lifelog of a day's contents JSON into at most one span from its first to
// its last timed segment, repairing spans whose end would precede their
// start. Around it: the gaps between sessions, the session-duration bins,
// the per-day aggregation and month validation of the monthly report, and
// the daily script's `daterange`.
//
// Times are whole seconds, as in `Calendar`. `pd.to_datetime` reads the
// empty string as NaT, and the table keeps such a span: NaT compares false
// with everything and has no duration.
module SessionSpans {
  import opened Common
  import opened Calendar
  import AudioMonth

  // ----- Input shapes -----

  /** A `startTime` or `endTime` field: no such key, JSON null, the empty
      string, text `pd.to_datetime` cannot read, or a time it reads. */
  datatype TimeField = NoKey | Null | EmptyText | BadText | Text(secs: int)
  {
    /** The key is in the object (`'startTime' in seg`). */
    predicate Present() {
      !NoKey?
    }

    /** Python truthiness of the stored value. */
    predicate Truthy() {
      BadText? || Text?
    }
  }

  /** A value of a timestamp column: a time, or NaT. */
  datatype Moment = NaT | T(secs: int)

  /** One element of a lifelog's `contents`: not a JSON object at all, or an
      object with its `type`, `startTime` and `endTime` fields. */
  datatype Segment = NotObject | Seg(kind: Field, startTime: TimeField, endTime: TimeField)

  /** A lifelog object; `contents` is `None` when the key is missing, null,
      or holds something other than a list. */
  datatype LogEntry = LogEntry(contents: Option<seq<Segment>>)

  /** A loaded contents JSON file: a list of lifelogs, or anything else. */
  datatype Lifelogs = LogList(entries: seq<LogEntry>) | NotList

  /** One row of the spans table: `first_timestamp`, `last_timestamp_of_span`. */
  datatype Span = Span(first: Moment, last: Moment)

  /** A span whose ends are both times has its end at or after its start. */
  predicate Ordered(s: Span) {
    s.first.T? && s.last.T? ==> s.first.secs <= s.last.secs
  }

  // ----- The segment filter -----

  predicate IsHeading(kind: Field) {
    kind == Str("heading1") || kind == Str("heading2") || kind == Str("heading3")
  }

  /** The comprehension's test: an object with a `startTime` key whose
      `type` is none of the three heading types. */
  predicate Considered(seg: Segment) {
    seg.Seg? && seg.startTime.Present() && !IsHeading(seg.kind)
  }

  /** `timestamped_segments`: the considered segments, in order. */
  function Timed(contents: seq<Segment>): (r: seq<Segment>)
    ensures |r| <= |contents|
    ensures forall x :: x in r <==> x in contents && Considered(x)
    ensures forall i :: 0 <= i < |r| ==> Considered(r[i])
  {
    if contents == [] then []
    else (if Considered(contents[0]) then [contents[0]] else []) + Timed(contents[1..])
  }

  /** The first timed segment is the first considered one of `contents`. */
  lemma {:induction false} TimedFirst(contents: seq<Segment>)
    requires Timed(contents) != []
    ensures exists i :: (0 <= i < |contents| && contents[i] == Timed(contents)[0]
                         && forall j :: 0 <= j < i ==> !Considered(contents[j]))
  {
    if Considered(contents[0]) {
      assert contents[0] == Timed(contents)[0];
    } else {
      var rest := contents[1..];
      assert Timed(contents) == Timed(rest);
      TimedFirst(rest);
      var i :| 0 <= i < |rest| && rest[i] == Timed(rest)[0]
        && forall j :: 0 <= j < i ==> !Considered(rest[j]);
      assert contents[i + 1] == rest[i];
      forall j | 0 <= j < i + 1
        ensures !Considered(contents[j])
      {
        if j > 0 {
          assert contents[j] == rest[j - 1];
        }
      }
    }
  }

  /** The last timed segment is the last considered one of `contents`. */
  lemma {:induction false} TimedLast(contents: seq<Segment>)
    requires Timed(contents) != []
    ensures exists i :: (0 <= i < |contents| && contents[i] == Timed(contents)[|Timed(contents)| - 1]
                         && forall j :: i < j < |contents| ==> !Considered(contents[j]))
  {
    var rest := contents[1..];
    var t := Timed(contents);
    if Timed(rest) == [] {
      assert Considered(contents[0]) && t == [contents[0]];
      forall j | 0 < j < |contents|
        ensures !Considered(contents[j])
      {
        assert contents[j] == rest[j - 1];
        assert contents[j] !in Timed(rest);
      }
    } else {
      TimedLast(rest);
      var tr := Timed(rest);
      assert t[|t| - 1] == tr[|tr| - 1];
      var i :| 0 <= i < |rest| && rest[i] == tr[|tr| - 1]
        && forall j :: i < j < |rest| ==> !Considered(rest[j]);
      assert contents[i + 1] == rest[i];
      forall j | i + 1 < j < |contents|
        ensures !Considered(contents[j])
      {
        assert contents[j] == rest[j - 1];
      }
    }
  }

  // ----- One lifelog's span -----

  /** `pd.to_datetime` of a field the span rules read, as far as the span
      is concerned: a time, NaT for the empty string, and nothing when the
      lifelog is dropped, because the text does not parse or because the
      `None` that null gives makes the `<` comparison raise. */
  function Stamped(f: TimeField): (r: Option<Moment>)
    ensures r == Some(NaT) <==> f.EmptyText?
    ensures (r.Some? && r.value.T?) <==> f.Text?
    ensures f.Text? ==> r == Some(T(f.secs))
  {
    match f
    case Text(x) => Some(T(x))
    case EmptyText => Some(NaT)
    case _ => None
  }

  /** The end the span gets before repair: the last timed segment's
      `endTime` when it is present and truthy, else its `startTime`. */
  function TentativeEnd(last: Segment): Option<Moment>
    requires last.Seg?
  {
    if last.endTime.Truthy() then Stamped(last.endTime) else Stamped(last.startTime)
  }

  /** The end of a span whose tentative end precedes its start: the first
      timed segment's `endTime` when it is truthy and not before the start,
      otherwise one second after the start. */
  function RepairedEnd(first: Segment, start: int): (r: Option<int>)
    requires first.Seg?
    ensures r.Some? ==> r.value >= start
  {
    if first.endTime.Truthy() then
      match first.endTime
      case Text(p) => Some(if p >= start then p else start + 1)
      case _ => None
    else Some(start + 1)
  }

  /** The tentative end precedes the start; false when either is NaT. */
  predicate Precedes(end: Moment, start: Moment) {
    start.T? && end.T? && end.secs < start.secs
  }

  /** The span one lifelog contributes, if any. */
  function SpanOf(e: LogEntry): (r: Option<Span>)
    ensures r.Some? ==> Ordered(r.value)
  {
    if e.contents.None? then None
    else
      var t := Timed(e.contents.value);
      if t == [] then None
      else
        match (Stamped(t[0].startTime), TentativeEnd(t[|t| - 1]))
        case (Some(start), Some(end)) =>
          if Precedes(end, start) then
            match RepairedEnd(t[0], start.secs)
            case Some(fixed) => Some(Span(start, T(fixed)))
            case None => None
          else Some(Span(start, end))
        case _ => None
  }

  /** A lifelog yields a span exactly when it has a timed segment and every
      time the rules read is a time or NaT; the span starts at the first
      considered segment's `startTime`, and its end is the tentative end
      unless both are times and the end precedes the start. */
  lemma SpanOfCases(e: LogEntry)
    ensures SpanOf(e).Some? <==>
      e.contents.Some? && Timed(e.contents.value) != []
      && var t := Timed(e.contents.value);
      Stamped(t[0].startTime).Some? && TentativeEnd(t[|t| - 1]).Some?
      && (Precedes(TentativeEnd(t[|t| - 1]).value, Stamped(t[0].startTime).value) ==>
            RepairedEnd(t[0], t[0].startTime.secs).Some?)
    ensures SpanOf(e).Some? ==>
      var t := Timed(e.contents.value);
      var start := Stamped(t[0].startTime).value;
      var end := TentativeEnd(t[|t| - 1]).value;
      SpanOf(e).value.first == start
      && (!Precedes(end, start) ==> SpanOf(e).value.last == end)
      && (Precedes(end, start) ==> SpanOf(e).value.last == T(RepairedEnd(t[0], start.secs).value))
  {
  }

  /** A first timed segment whose `startTime` is the empty string still
      gives a span, starting at NaT, whenever the end is readable. */
  lemma BlankStartKept(e: LogEntry)
    requires e.contents.Some? && Timed(e.contents.value) != []
    requires var t := Timed(e.contents.value);
      t[0].startTime.EmptyText? && TentativeEnd(t[|t| - 1]).Some?
    ensures var t := Timed(e.contents.value);
      SpanOf(e) == Some(Span(NaT, TentativeEnd(t[|t| - 1]).value))
  {
  }

  /** The span's start really is the `startTime` of the first segment of the
      lifelog that the filter keeps. */
  lemma SpanStartsAtFirstTimed(e: LogEntry)
    requires SpanOf(e).Some?
    ensures exists i :: (0 <= i < |e.contents.value| && Considered(e.contents.value[i])
                         && Stamped(e.contents.value[i].startTime) == Some(SpanOf(e).value.first)
                         && forall j :: 0 <= j < i ==> !Considered(e.contents.value[j]))
  {
    TimedFirst(e.contents.value);
    var t := Timed(e.contents.value);
    assert t[0] in t;
  }

  // ----- extract_session_spans -----

  function SpanList(o: Option<Span>): seq<Span> {
    if o.Some? then [o.value] else []
  }

  /** The spans of a list of lifelogs, in lifelog order. */
  function Spans(es: seq<LogEntry>): seq<Span> {
    if es == [] then [] else SpanList(SpanOf(es[0])) + Spans(es[1..])
  }

  /** The table `extract_session_spans` returns; non-list input gives none. */
  function SessionSpans(data: Lifelogs): seq<Span> {
    match data
    case LogList(es) => Spans(es)
    case NotList => []
  }

  /** `extract_session_spans`: one pass over the lifelogs, appending each
      one's span; a lifelog whose times do not parse is skipped. */
  method ExtractSessionSpans(data: Lifelogs) returns (spans: seq<Span>)
    ensures spans == SessionSpans(data)
  {
    if data.NotList? {
      return [];
    }
    var es := data.entries;
    spans := [];
    var k := 0;
    while k < |es|
      invariant 0 <= k <= |es|
      invariant spans == Spans(es[..k])
    {
      var next := k + 1;
      SpansSnoc(es, k, next);
      var span := SpanOf(es[k]);
      if span.Some? {
        spans := spans + [span.value];
      }
      k := next;
    }
    assert es[..k] == es;
  }

  lemma {:induction false} SpansAppend(a: seq<LogEntry>, b: seq<LogEntry>)
    ensures Spans(a + b) == Spans(a) + Spans(b)
  {
    if a == [] {
      assert a + b == b;
    } else {
      var rest := a[1..];
      assert (a + b)[0] == a[0];
      assert (a + b)[1..] == rest + b;
      SpansAppend(rest, b);
      AppendAssoc(SpanList(SpanOf(a[0])), Spans(rest), Spans(b));
    }
  }

  lemma SpansSnoc(es: seq<LogEntry>, k: nat, next: nat)
    requires next == k + 1 <= |es|
    ensures Spans(es[..next]) == Spans(es[..k]) + SpanList(SpanOf(es[k]))
  {
    assert es[..next] == es[..k] + [es[k]];
    SpansAppend(es[..k], [es[k]]);
    assert [es[k]][1..] == [];
  }

  /** Each lifelog contributes at most one span, and every span whose ends
      are both times has its end at or after its start. */
  lemma {:induction false} SpansShape(es: seq<LogEntry>)
    ensures |Spans(es)| <= |es|
    ensures forall s :: s in Spans(es) ==> Ordered(s)
  {
    if es != [] {
      SpansShape(es[1..]);
    }
  }

  /** A lifelog that yields no span (no usable contents, nothing timed, or a
      time that fails to parse) is dropped without affecting the others. */
  lemma SpanlessEntryDropped(a: seq<LogEntry>, e: LogEntry, b: seq<LogEntry>)
    requires SpanOf(e).None?
    ensures Spans(a + [e] + b) == Spans(a) + Spans(b)
  {
    var ae := a + [e];
    SpansAppend(ae, b);
    SpansAppend(a, [e]);
    SpansSingle(e);
  }

  lemma SpansSingle(e: LogEntry)
    ensures Spans([e]) == SpanList(SpanOf(e))
  {
    assert [e][1..] == [];
  }

  // ----- Gaps between sessions -----

  /** `first_timestamp.shift(-1) - last_timestamp_of_span` for one pair of
      adjacent rows: no value when either is NaT. */
  function Gap(a: Span, b: Span): Option<int> {
    if a.last.T? && b.first.T? then Some(b.first.secs - a.last.secs) else None
  }

  /** The gap statistics' input: for each span but the last, the distance
      from its end to the next span's start, kept only when it exists and is
      non-negative. The caller passes the table after
      `sort_values(by='first_timestamp')`; the gaps are taken between
      adjacent rows whatever their order, so no order is required here. */
  function Gaps(spans: seq<Span>): (r: seq<int>)
    ensures |r| <= if |spans| == 0 then 0 else |spans| - 1
    ensures forall g :: g in r ==> g >= 0
  {
    if |spans| < 2 then []
    else
      var g := Gap(spans[0], spans[1]);
      (if g.Some? && g.value >= 0 then [g.value] else []) + Gaps(spans[1..])
  }

  /** A value is a reported gap exactly when it is the non-negative distance
      between some span's end and the start of the span after it. */
  lemma {:induction false} GapsAreAdjacentDistances(spans: seq<Span>, g: int)
    ensures g in Gaps(spans) <==>
      g >= 0 && exists i :: 0 <= i < |spans| - 1 && Gap(spans[i], spans[i + 1]) == Some(g)
  {
    if |spans| >= 2 {
      var rest := spans[1..];
      GapsAreAdjacentDistances(rest, g);
      if g >= 0 && (exists i :: 0 <= i < |spans| - 1 && Gap(spans[i], spans[i + 1]) == Some(g)) {
        var i :| 0 <= i < |spans| - 1 && Gap(spans[i], spans[i + 1]) == Some(g);
        if i > 0 {
          assert Gap(rest[i - 1], rest[i]) == Some(g);
        }
      }
      if g in Gaps(rest) {
        var i :| 0 <= i < |rest| - 1 && Gap(rest[i], rest[i + 1]) == Some(g);
        assert Gap(spans[i + 1], spans[i + 2]) == Some(g);
      }
    }
  }

  // ----- Duration bins -----

  /** Lower edges, in minutes, of the bins `<1 min`, `1-5 min`, `5-15 min`,
      `15-30 min`, `30-60 min` and `>60 min`; the last bin is unbounded. */
  const BinEdges: seq<int> := [0, 1, 5, 15, 30, 60]

  /** `pd.cut(minutes, bins, right=False)` for a duration of `secs` seconds:
      the half-open bin holding it, none for a negative duration. */
  function BinOf(secs: int): (r: Option<nat>)
    ensures r.None? <==> secs < 0
    ensures r.Some? ==> (r.value < |BinEdges| && 60 * BinEdges[r.value] <= secs
      && (r.value + 1 < |BinEdges| ==> secs < 60 * BinEdges[r.value + 1]))
  {
    if secs < 0 then None
    else if secs < 60 then Some(0)
    else if secs < 300 then Some(1)
    else if secs < 900 then Some(2)
    else if secs < 1800 then Some(3)
    else if secs < 3600 then Some(4)
    else Some(5)
  }

  /** `duration_seconds`: none (NaN) when either end is NaT. */
  function Duration(s: Span): Option<int> {
    if s.first.T? && s.last.T? then Some(s.last.secs - s.first.secs) else None
  }

  /** The number of spans that have a duration. */
  function Measured(spans: seq<Span>): (n: nat)
    ensures n <= |spans|
  {
    if spans == [] then 0 else (if Duration(spans[0]).Some? then 1 else 0) + Measured(spans[1..])
  }

  /** A span lands in bin `k`; `pd.cut` puts a NaN duration in no bin. */
  predicate InBin(s: Span, k: nat) {
    Duration(s).Some? && BinOf(Duration(s).value) == Some(k)
  }

  /** `value_counts()` of one bin. */
  function BinCount(spans: seq<Span>, k: nat): (n: nat)
    ensures n <= Measured(spans)
  {
    if spans == [] then 0
    else (if InBin(spans[0], k) then 1 else 0) + BinCount(spans[1..], k)
  }

  function BinCountsFrom(spans: seq<Span>, k: nat): nat
    decreases |BinEdges| - k
  {
    if k >= |BinEdges| then 0 else BinCount(spans, k) + BinCountsFrom(spans, k + 1)
  }

  /** Every span with a duration lands in exactly one bin and a span with a
      NaT end in none, so the bin counts add up to the spans that have a
      duration. */
  lemma {:induction false} BinCountsTotal(spans: seq<Span>)
    requires forall s :: s in spans ==> Ordered(s)
    ensures BinCountsFrom(spans, 0) == Measured(spans)
  {
    if spans != [] {
      var rest := spans[1..];
      BinCountsTotal(rest);
      assert spans[0] in spans;
      if Duration(spans[0]).Some? {
        var b := BinOf(Duration(spans[0]).value).value;
        BinCountsStep(spans, 0, b);
      } else {
        BinCountsSkip(spans, 0);
      }
    }
  }

  /** Peeling the first span off the bins from `k` on: it adds one exactly
      when its bin `b` is among them. */
  lemma {:induction false} BinCountsStep(spans: seq<Span>, k: nat, b: nat)
    requires spans != [] && Duration(spans[0]).Some? && BinOf(Duration(spans[0]).value) == Some(b)
    ensures BinCountsFrom(spans, k) == BinCountsFrom(spans[1..], k) + (if k <= b then 1 else 0)
    decreases |BinEdges| - k
  {
    if k < |BinEdges| {
      BinCountsStep(spans, k + 1, b);
    }
  }

  /** A first span without a duration adds to no bin. */
  lemma {:induction false} BinCountsSkip(spans: seq<Span>, k: nat)
    requires spans != [] && Duration(spans[0]).None?
    ensures BinCountsFrom(spans, k) == BinCountsFrom(spans[1..], k)
    decreases |BinEdges| - k
  {
    if k < |BinEdges| {
      BinCountsSkip(spans, k + 1);
    }
  }

  // ----- The monthly report -----

  /** The month argument's checks: a month outside 1..12 or a year outside
      2000..`currentYear` + 5 is rejected; otherwise the month's length. */
  function MonthDays(year: int, month: int, currentYear: int): (r: Option<int>)
    ensures r.Some? <==> 1 <= month <= 12 && 2000 <= year <= currentYear + 5
    ensures r.Some? ==> r.value == DaysInMonth(year, month)
  {
    if !(1 <= month <= 12) then None
    else if !(2000 <= year <= currentYear + 5) then None
    else Some(DaysInMonth(year, month))
  }

  /** The summed length of a day's sessions, in seconds; `sum()` skips the
      NaN duration of a span with a NaT end. */
  function TotalDuration(spans: seq<Span>): (r: int)
    ensures (forall s :: s in spans ==> Ordered(s)) ==> r >= 0
  {
    if spans == [] then 0
    else
      assert spans[0] in spans && forall s :: s in spans[1..] ==> s in spans;
      (if Duration(spans[0]).Some? then Duration(spans[0]).value else 0) + TotalDuration(spans[1..])
  }

  /** One row of `daily_metrics_list`; `total_duration_hours` is kept in seconds. */
  datatype DayMetric = DayMetric(date: ValidDate, totalSeconds: int, sessionCount: nat)

  /** The row a day contributes: none when its file did not load or yields
      no span. */
  function DayMetricOf(d: ValidDate, loaded: Option<Lifelogs>): Option<DayMetric> {
    if loaded.None? then None
    else
      var spans := SessionSpans(loaded.value);
      if spans == [] then None else Some(DayMetric(d, TotalDuration(spans), |spans|))
  }

  /** The `n`-th day of the month as a date. */
  function DayOfMonth(year: int, month: int, n: nat): ValidDate
    requires year >= 1 && 1 <= month <= 12 && n < DaysInMonth(year, month)
  {
    Date(year, month, n + 1)
  }

  /** `daily_metrics_list` after the first `n` days of the month. */
  function MetricsUpTo(year: int, month: int, loaded: seq<Option<Lifelogs>>, n: nat): seq<DayMetric>
    requires year >= 1 && 1 <= month <= 12 && n <= |loaded| == DaysInMonth(year, month)
  {
    if n == 0 then []
    else
      var k := n - 1;
      MetricsUpTo(year, month, loaded, k)
        + (match DayMetricOf(DayOfMonth(year, month, k), loaded[k])
           case Some(m) => [m]
           case None => [])
  }

  lemma MetricsUpToUnfold(year: int, month: int, loaded: seq<Option<Lifelogs>>, k: nat, n: nat)
    requires year >= 1 && 1 <= month <= 12 && n == k + 1 <= |loaded| == DaysInMonth(year, month)
    ensures MetricsUpTo(year, month, loaded, n) == MetricsUpTo(year, month, loaded, k)
        + (match DayMetricOf(DayOfMonth(year, month, k), loaded[k])
           case Some(m) => [m]
           case None => [])
  {
  }

  /** The day loop of the monthly report's `main`: `loaded[i]` is what
      `load_contents_data` returned for day `i + 1`. */
  method MonthMetrics(year: int, month: int, loaded: seq<Option<Lifelogs>>)
    returns (metrics: seq<DayMetric>, daysWithData: nat)
    requires year >= 1 && 1 <= month <= 12 && |loaded| == DaysInMonth(year, month)
    ensures metrics == MetricsUpTo(year, month, loaded, |loaded|)
    ensures daysWithData == |metrics|
  {
    metrics := [];
    daysWithData := 0;
    var i := 0;
    while i < |loaded|
      invariant 0 <= i <= |loaded|
      invariant metrics == MetricsUpTo(year, month, loaded, i) && daysWithData == |metrics|
    {
      var d := Date(year, month, i + 1);
      var next := i + 1;
      MetricsUpToUnfold(year, month, loaded, i, next);
      if loaded[i].Some? {
        var spans := ExtractSessionSpans(loaded[i].value);
        if spans != [] {
          daysWithData := daysWithData + 1;
          metrics := metrics + [DayMetric(d, TotalDuration(spans), |spans|)];
        }
      }
      i := next;
    }
  }

  /** A day has a row exactly when it yields a span; its row counts those
      spans and sums their non-negative durations, and rows come in date
      order, one per day at most. */
  lemma {:induction false} MetricsShape(year: int, month: int, loaded: seq<Option<Lifelogs>>, n: nat)
    requires year >= 1 && 1 <= month <= 12 && n <= |loaded| == DaysInMonth(year, month)
    ensures var ms := MetricsUpTo(year, month, loaded, n);
      |ms| <= n
      && (forall i :: 0 <= i < |ms| ==>
            ms[i].date.year == year && ms[i].date.month == month && ms[i].date.day <= n
            && ms[i].sessionCount >= 1 && ms[i].totalSeconds >= 0)
      && (forall i, j :: 0 <= i < j < |ms| ==> ms[i].date.day < ms[j].date.day)
  {
    if n > 0 {
      var k := n - 1;
      MetricsShape(year, month, loaded, k);
      MetricsUpToUnfold(year, month, loaded, k, n);
      var d := DayOfMonth(year, month, k);
      if loaded[k].Some? {
        var spans := SessionSpans(loaded[k].value);
        if loaded[k].value.LogList? {
          SpansShape(loaded[k].value.entries);
        }
      }
    }
  }

  /** The day of a row has a span: a day counts toward `days_with_data`
      exactly when its file loads and yields at least one span. */
  lemma DayCountsIffSpans(d: ValidDate, loaded: Option<Lifelogs>)
    ensures DayMetricOf(d, loaded).Some? <==> loaded.Some? && SessionSpans(loaded.value) != []
    ensures DayMetricOf(d, loaded).Some? ==>
      DayMetricOf(d, loaded).value.sessionCount == |SessionSpans(loaded.value)|
  {
  }

  // ----- daterange -----

  /** `start + timedelta(n)`. */
  function AddDays(d: ValidDate, n: nat): ValidDate
    decreases n
  {
    if n == 0 then d else AddDays(NextDay(d), n - 1)
  }

  lemma {:induction false} AddDaysOrdinal(d: ValidDate, n: nat)
    ensures Ordinal(AddDays(d, n)) == Ordinal(d) + n
    decreases n
  {
    if n > 0 {
      AddDaysOrdinal(NextDay(d), n - 1);
    }
  }

  /** `daterange(start, end)`: `start + timedelta(n)` for `n` in
      `range((end - start).days + 1)`. */
  function Daterange(start: ValidDate, end: ValidDate): seq<ValidDate> {
    var count := Ordinal(end) - Ordinal(start) + 1;
    if count <= 0 then [] else seq(count, n requires 0 <= n < count => AddDays(start, n))
  }

  /** The daily script's `daterange` yields the dates the month audio
      script's `generate_date_range` lists: every day from start to end
      inclusive. */
  lemma DaterangeIsDaysFrom(start: ValidDate, end: ValidDate)
    ensures Daterange(start, end) == AudioMonth.DaysFrom(start, end)
  {
    var r := Daterange(start, end);
    var f := AudioMonth.DaysFrom(start, end);
    AudioMonth.DaysFromShape(start, end);
    assert |r| == |f|;
    forall n | 0 <= n < |r|
      ensures r[n] == f[n]
    {
      AddDaysOrdinal(start, n);
      OrdinalInjective(r[n], f[n]);
    }
  }
}
