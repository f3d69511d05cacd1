// The audio download planner shared by the single-day and the month audio
// exporters: timestamps are pulled out of a lifelog, deduplicated, sorted
// and clustered into recording periods; periods closer than the minimum gap
// are merged into sessions; sessions are split into chunks no longer than
// the download limit, each labelled by the hour it starts in.
//
// Instants are whole seconds of local wall-clock time (see `Calendar`).
// The scripts test gaps with float divisions (`seconds / 60 < minutes`,
// `seconds / 3600 <= hours`); with integer seconds and integer limits those
// tests are exactly `seconds < 60 * minutes` and `seconds <= 3600 * hours`.
module AudioPlanner {
  import opened Common
  import opened Calendar
  import opened Text
  import opened StampToken

  /** Consecutive timestamps less than this far apart share a period. */
  const ClusterGapSeconds := 300
  /** Default `min_gap_minutes` of both scripts. */
  const MinGapMinutes := 30
  /** `MAX_DURATION_HOURS`: the longest chunk the download endpoint serves. */
  const MaxDurationHours := 2

  // ----- Input shapes -----

  /** One entry of a lifelog's `contents`: its `startTime` and `endTime`
      fields, parsed by `fromisoformat` where they parse. */
  datatype Item = Item(startTime: Stamp<int>, endTime: Stamp<int>)

  /** One lifelog of a contents JSON file. A missing, null or empty
      `contents` is the empty sequence. */
  datatype LogRecord = LogRecord(contents: seq<Item>, fullMarkdown: Field)

  /** What the single-day script loaded: lifelog markdown, a contents JSON
      list, or anything else. */
  datatype LifelogData = Markdown(text: string) | Records(logs: seq<LogRecord>) | OtherShape

  datatype Period = Period(start: int, end: int)

  /** A chunk of the plan: its span and the value `chunk_index` had when it
      was made, which together give its label. */
  datatype Chunk = Chunk(start: int, end: int, index: nat) {
    function TimeLabel(): DayPart {
      Label(start, index)
    }
  }

  // ----- Stage 1: timestamps -----

  /** The instants a markdown text contributes: every token match that parses. */
  function MarkdownInstants(text: string): seq<int> {
    ParsedAll(FindTokens(text, 0))
  }

  /** A stamp contributes its instant only when `fromisoformat` accepts it;
      a missing key, an empty or null value and an unparseable one add nothing. */
  function StampInstants(st: Stamp<int>): (r: seq<int>)
    ensures |r| <= 1 && (r != [] <==> st.At?)
  {
    if st.At? then [st.value] else []
  }

  /** The start, then the end, of one item. */
  function ItemStamps(item: Item): seq<int> {
    StampInstants(item.startTime) + StampInstants(item.endTime)
  }

  /** The stamps of each item, in item order. */
  function ItemInstants(items: seq<Item>): seq<int> {
    if items == [] then [] else ItemStamps(items[0]) + ItemInstants(items[1..])
  }

  /** One pass of the loop over lifelogs: structured stamps first, then the
      `full_markdown` fallback, taken only when nothing has been collected yet. */
  function LogStep(acc: seq<int>, log: LogRecord): seq<int> {
    var acc1 := acc + ItemInstants(log.contents);
    if acc1 == [] && log.fullMarkdown.Truthy() then MarkdownInstants(log.fullMarkdown.s) else acc1
  }

  function GatherFrom(acc: seq<int>, logs: seq<LogRecord>): seq<int>
    decreases |logs|
  {
    if logs == [] then acc else GatherFrom(LogStep(acc, logs[0]), logs[1..])
  }

  /** The timestamps `extract_recording_periods` collects before sorting. */
  function Timestamps(data: LifelogData): seq<int> {
    match data
    case Markdown(text) => MarkdownInstants(text)
    case Records(logs) => GatherFrom([], logs)
    case OtherShape => []
  }

  /** Once some timestamp has been collected, later lifelogs contribute only
      their structured stamps: their markdown is never consulted. */
  lemma {:induction false} FallbackOnlyWhileEmpty(acc: seq<int>, logs: seq<LogRecord>)
    requires acc != []
    ensures GatherFrom(acc, logs) == acc + AllItemInstants(logs)
    decreases |logs|
  {
    if logs != [] {
      var x := ItemInstants(logs[0].contents);
      var acc1 := acc + x;
      assert |acc1| > 0;
      assert LogStep(acc, logs[0]) == acc1;
      FallbackOnlyWhileEmpty(acc1, logs[1..]);
      assert GatherFrom(acc, logs) == GatherFrom(acc1, logs[1..]);
      AppendAssoc(acc, x, AllItemInstants(logs[1..]));
    }
  }

  function AllItemInstants(logs: seq<LogRecord>): seq<int> {
    if logs == [] then [] else ItemInstants(logs[0].contents) + AllItemInstants(logs[1..])
  }

  /** The markdown fallback of a lifelog is read exactly when no earlier
      lifelog and none of its own items produced a timestamp. */
  lemma FallbackTakenWhenEmpty(log: LogRecord)
    requires ItemInstants(log.contents) == [] && log.fullMarkdown.Truthy()
    ensures LogStep([], log) == MarkdownInstants(log.fullMarkdown.s)
  {
  }

  /** The month script's `extract_recording_periods` gets markdown text (or
      nothing); a falsy text yields no timestamps, as the single-day script's
      string branch does. */
  function MonthTimestamps(markdown: Field): (r: seq<int>)
    ensures markdown.Truthy() ==> r == Timestamps(Markdown(markdown.s))
    ensures !markdown.Truthy() ==> r == []
  {
    if markdown.Truthy() then MarkdownInstants(markdown.s) else []
  }

  /** The loops of `extract_recording_periods` that fill `timestamps`. */
  method ExtractTimestamps(data: LifelogData) returns (ts: seq<int>)
    ensures ts == Timestamps(data)
  {
    match data {
      case Markdown(text) =>
        ts := ExtractInstants(text);
      case OtherShape =>
        ts := [];
      case Records(logs) =>
        ts := GatherTimestamps(logs);
    }
  }

  /** The loop over the lifelogs of a contents JSON list. */
  method GatherTimestamps(logs: seq<LogRecord>) returns (ts: seq<int>)
    ensures ts == GatherFrom([], logs)
  {
    ts := [];
    var i := 0;
    while i < |logs|
      invariant 0 <= i <= |logs|
      invariant GatherFrom(ts, logs[i..]) == GatherFrom([], logs)
    {
      var log := logs[i];
      ghost var before := ts;
      ts := AppendItemStamps(ts, log.contents);
      if ts == [] && log.fullMarkdown.Truthy() {
        var more := ExtractInstants(log.fullMarkdown.s);
        ts := ts + more;
      }
      assert ts == LogStep(before, log);
      assert logs[i..] == [log] + logs[i + 1..];
      i := i + 1;
    }
  }

  /** The loop over one lifelog's items, appending each present stamp. */
  method AppendItemStamps(ts0: seq<int>, items: seq<Item>) returns (ts: seq<int>)
    ensures ts == ts0 + ItemInstants(items)
  {
    ts := ts0;
    var j := 0;
    while j < |items|
      invariant 0 <= j <= |items|
      invariant ts == ts0 + ItemInstants(items[..j])
    {
      var item := items[j];
      ghost var prev := ts;
      if item.startTime.At? {
        ts := ts + [item.startTime.value];
      } else {
        assert ts == prev + [];
      }
      ghost var mid := ts;
      if item.endTime.At? {
        ts := ts + [item.endTime.value];
      } else {
        assert ts == mid + [];
      }
      AppendAssoc(prev, StampInstants(item.startTime), StampInstants(item.endTime));
      assert ts == prev + ItemStamps(item);
      ItemInstantsPrefix(ts0, items, j);
      assert ts == ts0 + ItemInstants(items[..j + 1]);
      j := j + 1;
    }
    assert items[..j] == items;
  }

  lemma ItemInstantsPrefix(ts0: seq<int>, items: seq<Item>, j: nat)
    requires j < |items|
    ensures ts0 + ItemInstants(items[..j]) + ItemStamps(items[j]) == ts0 + ItemInstants(items[..j + 1])
  {
    assert items[..j + 1] == items[..j] + [items[j]];
    ItemInstantsSnoc(items[..j], items[j]);
    AppendAssoc(ts0, ItemInstants(items[..j]), ItemStamps(items[j]));
  }

  lemma {:induction false} ItemInstantsSnoc(items: seq<Item>, item: Item)
    ensures ItemInstants(items + [item]) == ItemInstants(items) + ItemStamps(item)
  {
    if items == [] {
      assert [] + [item] == [item];
      assert ItemInstants([item]) == ItemStamps(item) + ItemInstants([]);
    } else {
      assert (items + [item])[1..] == items[1..] + [item];
      ItemInstantsSnoc(items[1..], item);
      AppendAssoc(ItemStamps(items[0]), ItemInstants(items[1..]), ItemStamps(item));
    }
  }

  // ----- Stage 2: sort, deduplicate, cluster -----

  predicate StrictlyIncreasing(s: seq<int>) {
    forall j, k :: 0 <= j < k < |s| ==> s[j] < s[k]
  }

  function InsertDistinct(x: int, s: seq<int>): (r: seq<int>)
    requires StrictlyIncreasing(s)
    ensures StrictlyIncreasing(r) && forall y :: y in r <==> y == x || y in s
  {
    if s == [] then [x]
    else if x < s[0] then [x] + s
    else if x == s[0] then s
    else
      var rest := InsertDistinct(x, s[1..]);
      assert forall k :: 0 <= k < |rest| ==> s[0] < rest[k] by {
        forall k | 0 <= k < |rest| ensures s[0] < rest[k] {
          assert rest[k] in rest;
          if rest[k] != x {
            var m :| 0 <= m < |s[1..]| && s[1..][m] == rest[k];
            assert s[m + 1] == rest[k];
          }
        }
      }
      [s[0]] + rest
  }

  /** `sorted(set(timestamps))`. */
  function SortedDistinct(ts: seq<int>): (r: seq<int>)
    ensures StrictlyIncreasing(r) && forall y :: y in r <==> y in ts
  {
    if ts == [] then [] else InsertDistinct(ts[|ts| - 1], SortedDistinct(ts[..|ts| - 1]))
  }

  /** The clustering loop from instant `i` on, with the open period
      `[start, end]`. */
  function ClusterFrom(ts: seq<int>, i: nat, start: int, end: int): seq<Period>
    requires i <= |ts|
    decreases |ts| - i
  {
    if i == |ts| then [Period(start, end)]
    else if ts[i] - end < ClusterGapSeconds then ClusterFrom(ts, i + 1, start, ts[i])
    else [Period(start, end)] + ClusterFrom(ts, i + 1, ts[i], ts[i])
  }

  function Cluster(ts: seq<int>): seq<Period> {
    if ts == [] then [] else ClusterFrom(ts, 1, ts[0], ts[0])
  }

  /** Between two instants of `ts` lying in `[a, b]`, neighbours are less
      than `ClusterGapSeconds` apart. */
  predicate Tight(ts: seq<int>, a: int, b: int) {
    forall k :: 0 <= k < |ts| - 1 && a <= ts[k] && ts[k + 1] <= b ==> ts[k + 1] - ts[k] < ClusterGapSeconds
  }

  /** A period clustering can produce from `ts`: it runs from one instant of
      `ts` to a later or equal one, with no gap of 300 s or more inside. */
  predicate RunOf(ts: seq<int>, p: Period) {
    p.start <= p.end && p.start in ts && p.end in ts && Tight(ts, p.start, p.end)
  }

  predicate AllRuns(ts: seq<int>, ps: seq<Period>) {
    forall q :: 0 <= q < |ps| ==> RunOf(ts, ps[q])
  }

  /** Periods in order, separated by at least `gap`. */
  predicate Separated(ps: seq<Period>, gap: int) {
    forall q :: 0 <= q < |ps| - 1 ==> ps[q + 1].start - ps[q].end >= gap
  }

  predicate Covered(x: int, ps: seq<Period>) {
    exists q :: 0 <= q < |ps| && ps[q].start <= x <= ps[q].end
  }

  /** The precondition of every clustering step: the open period starts at
      an instant and ends at `end`, the last instant read, with no wide gap. */
  predicate OpenRun(ts: seq<int>, i: nat, start: int, end: int) {
    StrictlyIncreasing(ts) && 1 <= i <= |ts| && end == ts[i - 1]
    && start in ts && start <= end && Tight(ts, start, end)
  }

  lemma TightExtend(ts: seq<int>, i: nat, start: int, end: int)
    requires OpenRun(ts, i, start, end) && i < |ts| && ts[i] - end < ClusterGapSeconds
    ensures OpenRun(ts, i + 1, start, ts[i])
  {
    forall k | 0 <= k < |ts| - 1 && start <= ts[k] && ts[k + 1] <= ts[i]
      ensures ts[k + 1] - ts[k] < ClusterGapSeconds
    {
      if k + 1 > i { assert false; }
    }
  }

  lemma TightSingle(ts: seq<int>, i: nat)
    requires StrictlyIncreasing(ts) && i < |ts|
    ensures OpenRun(ts, i + 1, ts[i], ts[i])
  {
  }

  lemma {:induction false} ClusterFromFirst(ts: seq<int>, i: nat, start: int, end: int)
    requires OpenRun(ts, i, start, end)
    ensures var r := ClusterFrom(ts, i, start, end);
      |r| >= 1 && r[0].start == start && r[0].end >= end && r[|r| - 1].end == ts[|ts| - 1]
    decreases |ts| - i
  {
    if i < |ts| {
      if ts[i] - end < ClusterGapSeconds {
        TightExtend(ts, i, start, end);
        ClusterFromFirst(ts, i + 1, start, ts[i]);
      } else {
        TightSingle(ts, i);
        ClusterFromFirst(ts, i + 1, ts[i], ts[i]);
      }
    }
  }

  lemma {:induction false} ClusterFromRuns(ts: seq<int>, i: nat, start: int, end: int)
    requires OpenRun(ts, i, start, end)
    ensures AllRuns(ts, ClusterFrom(ts, i, start, end))
    decreases |ts| - i
  {
    if i == |ts| {
      assert ts[i - 1] in ts;
    } else if ts[i] - end < ClusterGapSeconds {
      TightExtend(ts, i, start, end);
      ClusterFromRuns(ts, i + 1, start, ts[i]);
    } else {
      TightSingle(ts, i);
      ClusterFromRuns(ts, i + 1, ts[i], ts[i]);
      var r1 := ClusterFrom(ts, i + 1, ts[i], ts[i]);
      var r := [Period(start, end)] + r1;
      assert ts[i - 1] in ts;
      forall q | 0 < q < |r| ensures RunOf(ts, r[q]) {
        assert r[q] == r1[q - 1];
      }
    }
  }

  lemma {:induction false} ClusterFromSeparated(ts: seq<int>, i: nat, start: int, end: int)
    requires OpenRun(ts, i, start, end)
    ensures Separated(ClusterFrom(ts, i, start, end), ClusterGapSeconds)
    decreases |ts| - i
  {
    if i < |ts| {
      if ts[i] - end < ClusterGapSeconds {
        TightExtend(ts, i, start, end);
        ClusterFromSeparated(ts, i + 1, start, ts[i]);
      } else {
        TightSingle(ts, i);
        ClusterFromSeparated(ts, i + 1, ts[i], ts[i]);
        ClusterFromFirst(ts, i + 1, ts[i], ts[i]);
        var r1 := ClusterFrom(ts, i + 1, ts[i], ts[i]);
        var r := [Period(start, end)] + r1;
        forall q | 0 <= q < |r| - 1 ensures r[q + 1].start - r[q].end >= ClusterGapSeconds {
          if q > 0 { assert r[q + 1] == r1[q] && r[q] == r1[q - 1]; }
        }
      }
    }
  }

  /** Every instant of `ts` from index `i` on lies in a period of `ps`. */
  predicate CoversFrom(ts: seq<int>, i: nat, ps: seq<Period>) {
    forall k :: i <= k < |ts| ==> Covered(ts[k], ps)
  }

  lemma {:induction false} ClusterFromCovers(ts: seq<int>, i: nat, start: int, end: int)
    requires OpenRun(ts, i, start, end)
    ensures CoversFrom(ts, i - 1, ClusterFrom(ts, i, start, end))
    decreases |ts| - i
  {
    if i == |ts| {
      var r := ClusterFrom(ts, i, start, end);
      assert r[0].start <= end <= r[0].end;
    } else if ts[i] - end < ClusterGapSeconds {
      TightExtend(ts, i, start, end);
      ClusterCoversExtend(ts, i, start, end);
    } else {
      TightSingle(ts, i);
      ClusterCoversClose(ts, i, start, end);
    }
  }

  lemma {:induction false} ClusterCoversExtend(ts: seq<int>, i: nat, start: int, end: int)
    requires 1 <= i < |ts| && OpenRun(ts, i + 1, start, ts[i]) && ts[i] - end < ClusterGapSeconds
    requires end == ts[i - 1] && start <= end
    ensures CoversFrom(ts, i - 1, ClusterFrom(ts, i, start, end))
    decreases |ts| - i, 0
  {
    var r := ClusterFrom(ts, i + 1, start, ts[i]);
    assert ClusterFrom(ts, i, start, end) == r;
    ClusterFromCovers(ts, i + 1, start, ts[i]);
    ClusterFromFirst(ts, i + 1, start, ts[i]);
    assert CoversFrom(ts, i, r);
    assert Covered(end, r) by {
      assert end < ts[i];
      assert r[0].start <= end <= r[0].end;
    }
  }

  lemma {:induction false} ClusterCoversClose(ts: seq<int>, i: nat, start: int, end: int)
    requires 1 <= i < |ts| && OpenRun(ts, i + 1, ts[i], ts[i]) && ts[i] - end >= ClusterGapSeconds
    requires end == ts[i - 1] && start <= end
    ensures CoversFrom(ts, i - 1, ClusterFrom(ts, i, start, end))
    decreases |ts| - i, 0
  {
    var r1 := ClusterFrom(ts, i + 1, ts[i], ts[i]);
    var r := [Period(start, end)] + r1;
    assert ClusterFrom(ts, i, start, end) == r;
    ClusterFromCovers(ts, i + 1, ts[i], ts[i]);
    assert r[0].start <= end <= r[0].end;
    forall k | i <= k < |ts| ensures Covered(ts[k], r) {
      CoveredCons(ts[k], Period(start, end), r1);
    }
  }

  lemma CoveredCons(x: int, p: Period, ps: seq<Period>)
    requires Covered(x, ps)
    ensures Covered(x, [p] + ps)
  {
    var q :| 0 <= q < |ps| && ps[q].start <= x <= ps[q].end;
    assert ([p] + ps)[q + 1] == ps[q];
  }

  /** What clustering guarantees for the sorted distinct instants it is
      given: every instant lies in a period; every period runs from one
      instant to a later or equal one, with neighbouring instants inside it
      less than 300 s apart; consecutive periods are at least 300 s apart. */
  lemma ClusterShape(ts: seq<int>)
    requires StrictlyIncreasing(ts)
    ensures Cluster(ts) == [] <==> ts == []
    ensures AllRuns(ts, Cluster(ts))
    ensures Separated(Cluster(ts), ClusterGapSeconds)
    ensures CoversFrom(ts, 0, Cluster(ts))
  {
    if ts != [] {
      TightSingle(ts, 0);
      ClusterFromFirst(ts, 1, ts[0], ts[0]);
      ClusterFromRuns(ts, 1, ts[0], ts[0]);
      ClusterFromSeparated(ts, 1, ts[0], ts[0]);
      ClusterFromCovers(ts, 1, ts[0], ts[0]);
    }
  }

  /** The grouping loop of `extract_recording_periods`. */
  method ClusterInstants(ts: seq<int>) returns (periods: seq<Period>)
    ensures periods == Cluster(ts)
  {
    periods := [];
    if ts == [] {
      return;
    }
    var currentStart, currentEnd := ts[0], ts[0];
    var i := 1;
    while i < |ts|
      invariant 1 <= i <= |ts|
      invariant periods + ClusterFrom(ts, i, currentStart, currentEnd) == Cluster(ts)
    {
      if ts[i] - currentEnd < ClusterGapSeconds {
        currentEnd := ts[i];
      } else {
        periods := periods + [Period(currentStart, currentEnd)];
        currentStart, currentEnd := ts[i], ts[i];
      }
      i := i + 1;
    }
    periods := periods + [Period(currentStart, currentEnd)];
  }

  /** `extract_recording_periods`. */
  method ExtractRecordingPeriods(data: LifelogData) returns (periods: seq<Period>)
    ensures periods == Cluster(SortedDistinct(Timestamps(data)))
    ensures periods == [] <==> Timestamps(data) == []
  {
    var ts := ExtractTimestamps(data);
    if ts == [] {
      return [];
    }
    var sorted := SortedDistinct(ts);
    assert ts[0] in sorted;
    periods := ClusterInstants(sorted);
    ClusterShape(sorted);
  }

  // ----- Stage 3: merge close periods -----

  /** The merge loop from period `i` on, with `last` standing for `merged[-1]`. */
  function MergeFrom(ps: seq<Period>, i: nat, last: Period, gapSec: int): seq<Period>
    requires i <= |ps|
    decreases |ps| - i
  {
    if i == |ps| then [last]
    else if ps[i].start - last.end < gapSec then
      MergeFrom(ps, i + 1, Period(last.start, Max(ps[i].end, last.end)), gapSec)
    else [last] + MergeFrom(ps, i + 1, ps[i], gapSec)
  }

  /** `merge_close_periods(periods, min_gap_minutes)` with `gapSec` the
      minimum gap in seconds. */
  function Merge(ps: seq<Period>, gapSec: int): seq<Period> {
    if ps == [] then [] else MergeFrom(ps, 1, ps[0], gapSec)
  }

  /** `merge_close_periods`, updating `merged[-1]` in place. */
  method MergeClosePeriods(ps: seq<Period>, minGapMinutes: int) returns (merged: seq<Period>)
    ensures merged == Merge(ps, 60 * minGapMinutes)
  {
    if ps == [] {
      return [];
    }
    merged := [ps[0]];
    var i := 1;
    while i < |ps|
      invariant 1 <= i <= |ps| && merged != []
      invariant merged[..|merged| - 1] + MergeFrom(ps, i, merged[|merged| - 1], 60 * minGapMinutes)
        == Merge(ps, 60 * minGapMinutes)
    {
      var last := merged[|merged| - 1];
      var p := ps[i];
      if p.start - last.end < 60 * minGapMinutes {
        merged := merged[|merged| - 1 := Period(last.start, Max(p.end, last.end))];
      } else {
        merged := merged + [p];
      }
      i := i + 1;
    }
  }

  predicate StartsSorted(ps: seq<Period>) {
    forall j, k :: 0 <= j < k < |ps| ==> ps[j].start <= ps[k].start
  }

  predicate Proper(ps: seq<Period>) {
    forall q :: 0 <= q < |ps| ==> ps[q].start <= ps[q].end
  }

  predicate Within(p: Period, ps: seq<Period>) {
    exists q :: 0 <= q < |ps| && ps[q].start <= p.start && p.end <= ps[q].end
  }

  lemma {:induction false} MergeFromShape(ps: seq<Period>, i: nat, last: Period, gapSec: int)
    requires i <= |ps|
    ensures var r := MergeFrom(ps, i, last, gapSec);
      1 <= |r| <= |ps| - i + 1 && r[0].start == last.start && r[0].end >= last.end
      && Separated(r, gapSec)
      && (forall q :: 0 <= q < |r| ==> r[q].start == last.start || exists k :: i <= k < |ps| && r[q].start == ps[k].start)
    decreases |ps| - i
  {
    if i < |ps| {
      if ps[i].start - last.end < gapSec {
        MergeFromShape(ps, i + 1, Period(last.start, Max(ps[i].end, last.end)), gapSec);
      } else {
        MergeFromShape(ps, i + 1, ps[i], gapSec);
        var r1 := MergeFrom(ps, i + 1, ps[i], gapSec);
        var r := [last] + r1;
        assert MergeFrom(ps, i, last, gapSec) == r;
        forall q | 0 <= q < |r| - 1 ensures r[q + 1].start - r[q].end >= gapSec {
          if q > 0 { assert r[q + 1] == r1[q] && r[q] == r1[q - 1]; }
        }
        forall q | 0 < q < |r|
          ensures exists k :: i <= k < |ps| && r[q].start == ps[k].start
        {
          assert r[q] == r1[q - 1];
        }
      }
    }
  }

  /** Merging never lengthens the list, keeps the first start, and leaves
      every pair of neighbouring sessions at least `gapSec` apart; every
      session starts where some input period starts. */
  lemma MergeShape(ps: seq<Period>, gapSec: int)
    ensures var r := Merge(ps, gapSec);
      |r| <= |ps| && (r == [] <==> ps == [])
      && (ps != [] ==> r[0].start == ps[0].start)
      && Separated(r, gapSec)
      && (forall q :: 0 <= q < |r| ==> exists k :: 0 <= k < |ps| && r[q].start == ps[k].start)
  {
    if ps != [] {
      MergeFromShape(ps, 1, ps[0], gapSec);
    }
  }

  lemma {:induction false} MergeFromCovers(ps: seq<Period>, i: nat, last: Period, gapSec: int)
    requires i <= |ps| && StartsSorted(ps) && Proper(ps) && last.start <= last.end
    requires i < |ps| ==> last.start <= ps[i].start
    ensures var r := MergeFrom(ps, i, last, gapSec);
      Proper(r) && Within(last, r) && forall k :: i <= k < |ps| ==> Within(ps[k], r)
    decreases |ps| - i
  {
    var r := MergeFrom(ps, i, last, gapSec);
    if i == |ps| {
      assert r[0] == last;
    } else if ps[i].start - last.end < gapSec {
      var next := Period(last.start, Max(ps[i].end, last.end));
      MergeFromCovers(ps, i + 1, next, gapSec);
      var q :| 0 <= q < |r| && r[q].start <= next.start && next.end <= r[q].end;
      assert r[q].start <= last.start && last.end <= r[q].end;
      assert r[q].start <= ps[i].start && ps[i].end <= r[q].end;
    } else {
      MergeFromCovers(ps, i + 1, ps[i], gapSec);
      var r1 := MergeFrom(ps, i + 1, ps[i], gapSec);
      assert r == [last] + r1;
      assert r[0] == last;
      forall k | i <= k < |ps| ensures Within(ps[k], r) {
        var q :| 0 <= q < |r1| && r1[q].start <= ps[k].start && ps[k].end <= r1[q].end;
        assert r[q + 1] == r1[q];
      }
      assert Proper(r) by {
        forall q | 0 < q < |r| ensures r[q].start <= r[q].end {
          assert r[q] == r1[q - 1];
        }
      }
    }
  }

  /** On periods sorted by start with start <= end (what clustering
      produces), merging loses no recording time: every input period lies
      inside one output session, and every session has start <= end. */
  lemma MergeCovers(ps: seq<Period>, gapSec: int)
    requires StartsSorted(ps) && Proper(ps)
    ensures Proper(Merge(ps, gapSec))
    ensures forall k :: 0 <= k < |ps| ==> Within(ps[k], Merge(ps, gapSec))
  {
    if ps != [] {
      MergeFromCovers(ps, 1, ps[0], gapSec);
    }
  }

  // The merge described without the loop: which periods open a session,
  // and where each session ends.

  /** The latest end among `ps[lo..hi]`. */
  function MaxEndIn(ps: seq<Period>, lo: nat, hi: nat): int
    requires lo < hi <= |ps|
    decreases hi
  {
    if hi == lo + 1 then ps[lo].end else Max(MaxEndIn(ps, lo, hi - 1), ps[hi - 1].end)
  }

  /** Period `k` opens a session: it is the first, or it starts at least
      `gapSec` after the latest end of the periods before it. */
  predicate Opens(ps: seq<Period>, k: nat, gapSec: int)
    requires k < |ps|
  {
    k == 0 || ps[k].start - MaxEndIn(ps, 0, k) >= gapSec
  }

  /** Indices in `lo..hi`, strictly increasing. */
  predicate IndicesIn(b: seq<nat>, lo: nat, hi: nat) {
    forall j :: 0 <= j < |b| ==> lo <= b[j] < hi && (j + 1 < |b| ==> b[j] < b[j + 1])
  }

  /** The indices from `i` on of the periods that open a session. */
  function OpenersFrom(ps: seq<Period>, i: nat, gapSec: int): (r: seq<nat>)
    requires i <= |ps|
    ensures IndicesIn(r, i, |ps|)
    decreases |ps| - i
  {
    if i == |ps| then []
    else (if Opens(ps, i, gapSec) then [i] else []) + OpenersFrom(ps, i + 1, gapSec)
  }

  /** The indices of the periods that open a session, in order. */
  function Openers(ps: seq<Period>, gapSec: int): (r: seq<nat>)
    ensures IndicesIn(r, 0, |ps|)
  {
    OpenersFrom(ps, 0, gapSec)
  }

  /** Where the session opened by `b[j]` stops: at the next opener, or at
      the end of the input. */
  function Closer(b: seq<nat>, j: nat, n: nat): nat {
    if j + 1 < |b| then b[j + 1] else n
  }

  /** `r` holds one session per index of `b`, an increasing list of indices
      from `lo` on: session `j` starts where period `b[j]` starts and ends
      at the latest end of the periods from `b[j]` up to the next index. */
  predicate Sessions(ps: seq<Period>, r: seq<Period>, b: seq<nat>, lo: nat) {
    IndicesIn(b, lo, |ps|) && |r| == |b|
    && forall j :: 0 <= j < |r| ==>
         r[j] == Period(ps[b[j]].start, MaxEndIn(ps, b[j], Closer(b, j, |ps|)))
  }

  /** On periods with start <= end (what clustering produces) and a
      non-negative gap, the merge emits one session per opening period, in
      order: it starts where that period starts and ends at the latest end
      of the periods it absorbs, up to the next opener. So a period joins
      the session before it exactly when it starts less than `gapSec` after
      the latest end so far. */
  lemma MergeExact(ps: seq<Period>, gapSec: int)
    requires Proper(ps) && gapSec >= 0
    ensures var r := Merge(ps, gapSec); var b := Openers(ps, gapSec);
      |r| == |b|
      && forall j :: 0 <= j < |r| ==>
           r[j] == Period(ps[b[j]].start, MaxEndIn(ps, b[j], Closer(b, j, |ps|)))
  {
    if ps != [] {
      assert Opens(ps, 0, gapSec);
      assert Openers(ps, gapSec) == [0] + OpenersFrom(ps, 1, gapSec);
      MergeFromExact(ps, 1, 0, ps[0], gapSec);
    }
  }

  /** The merge loop from period `i` on, with the open session begun by
      period `c` and ending at the latest end so far. */
  lemma {:induction false} MergeFromExact(ps: seq<Period>, i: nat, c: nat, last: Period, gapSec: int)
    requires Proper(ps) && gapSec >= 0 && c < i <= |ps|
    requires last.start == ps[c].start && last.end == MaxEndIn(ps, c, i) && last.end == MaxEndIn(ps, 0, i)
    ensures Sessions(ps, MergeFrom(ps, i, last, gapSec), [c] + OpenersFrom(ps, i, gapSec), c)
    decreases |ps| - i
  {
    if i == |ps| {
      assert MergeFrom(ps, i, last, gapSec) == [last];
      assert [c] + OpenersFrom(ps, i, gapSec) == [c];
    } else {
      if ps[i].start - last.end < gapSec {
        var next := Period(last.start, Max(ps[i].end, last.end));
        AbsorbStep(ps, i, c, last, gapSec);
        MergeFromExact(ps, i + 1, c, next, gapSec);
        assert MergeFrom(ps, i, last, gapSec) == MergeFrom(ps, i + 1, next, gapSec);
      } else {
        OpenStep(ps, i, c, last, gapSec);
        MergeFromExact(ps, i + 1, i, ps[i], gapSec);
        var r1 := MergeFrom(ps, i + 1, ps[i], gapSec);
        assert MergeFrom(ps, i, last, gapSec) == [last] + r1;
        ConsSession(ps, last, c, r1, [i] + OpenersFrom(ps, i + 1, gapSec));
      }
    }
  }

  /** A period starting less than `gapSec` after the latest end so far opens
      nothing, and the open session then ends at the latest end including it. */
  lemma AbsorbStep(ps: seq<Period>, i: nat, c: nat, last: Period, gapSec: int)
    requires c < i < |ps| && ps[i].start - last.end < gapSec
    requires last.end == MaxEndIn(ps, c, i) && last.end == MaxEndIn(ps, 0, i)
    ensures OpenersFrom(ps, i, gapSec) == OpenersFrom(ps, i + 1, gapSec)
    ensures Max(ps[i].end, last.end) == MaxEndIn(ps, c, i + 1) == MaxEndIn(ps, 0, i + 1)
  {
    assert !Opens(ps, i, gapSec);
  }

  /** A period starting at least `gapSec` after the latest end so far opens
      a session, and its own end is then the latest end so far. */
  lemma OpenStep(ps: seq<Period>, i: nat, c: nat, last: Period, gapSec: int)
    requires Proper(ps) && gapSec >= 0
    requires c < i < |ps| && ps[i].start - last.end >= gapSec && last.end == MaxEndIn(ps, 0, i)
    ensures OpenersFrom(ps, i, gapSec) == [i] + OpenersFrom(ps, i + 1, gapSec)
    ensures ps[i].end == MaxEndIn(ps, i, i + 1) == MaxEndIn(ps, 0, i + 1)
  {
    assert Opens(ps, i, gapSec);
    assert ps[i].start <= ps[i].end;
  }

  /** Putting the session opened by `c` in front of the sessions opened by
      the later indices `b1`. */
  lemma ConsSession(ps: seq<Period>, last: Period, c: nat, r1: seq<Period>, b1: seq<nat>)
    requires c < |ps| && Sessions(ps, r1, b1, c + 1) && b1 != []
    requires last == Period(ps[c].start, MaxEndIn(ps, c, b1[0]))
    ensures Sessions(ps, [last] + r1, [c] + b1, c)
  {
    var r := [last] + r1;
    var b := [c] + b1;
    assert IndicesIn(b, c, |ps|) by {
      forall j | 0 <= j < |b|
        ensures c <= b[j] < |ps| && (j + 1 < |b| ==> b[j] < b[j + 1])
      {
        if j > 0 {
          assert b[j] == b1[j - 1];
        }
        if j + 1 < |b| {
          assert b[j + 1] == b1[j];
        }
      }
    }
    assert r[0] == last && b[0] == c && Closer(b, 0, |ps|) == b1[0];
    forall j | 0 < j < |r|
      ensures r[j] == Period(ps[b[j]].start, MaxEndIn(ps, b[j], Closer(b, j, |ps|)))
    {
      assert r[j] == r1[j - 1] && b[j] == b1[j - 1];
      assert Closer(b, j, |ps|) == Closer(b1, j - 1, |ps|);
    }
  }

  /** The clustered periods of sorted instants are sorted and proper, so
      merging them covers every one of them. */
  lemma ClusterFeedsMerge(ts: seq<int>)
    requires StrictlyIncreasing(ts)
    ensures StartsSorted(Cluster(ts)) && Proper(Cluster(ts))
  {
    ClusterShape(ts);
    var r := Cluster(ts);
    forall j, k | 0 <= j < k < |r| ensures r[j].start <= r[k].start {
      SeparatedIncreasing(r, j, k);
    }
  }

  lemma {:induction false} SeparatedIncreasing(r: seq<Period>, j: nat, k: nat)
    requires Separated(r, ClusterGapSeconds) && Proper(r) && j < k < |r|
    ensures r[j].start < r[k].start
    decreases k - j
  {
    if j + 1 < k {
      SeparatedIncreasing(r, j + 1, k);
    }
    assert r[j + 1].start - r[j].end >= ClusterGapSeconds;
  }

  // ----- Stage 4: chunks and labels -----

  /** The label words `get_time_label` chooses from. */
  datatype DayPart = Morning | Afternoon | Evening | Night | Session(index: nat)
  {
    /** The word as it appears in file names. */
    function Text(): string {
      match this
      case Morning => "morning"
      case Afternoon => "afternoon"
      case Evening => "evening"
      case Night => "night"
      case Session(n) => "session-" + Padded(n, 1)
    }
  }

  /** `get_time_label` of the single-day script. Its `session-N` branch is
      reached only by an hour outside 0..23. */
  function SingleDayLabel(hour: int, index: nat): DayPart {
    if 5 <= hour < 12 then Morning
    else if 12 <= hour < 17 then Afternoon
    else if 17 <= hour < 21 then Evening
    else if 21 <= hour < 24 || 0 <= hour < 5 then Night
    else Session(index)
  }

  /** `get_time_label` of the month script: every other hour is night. */
  function MonthLabel(hour: int): DayPart {
    if 5 <= hour < 12 then Morning
    else if 12 <= hour < 17 then Afternoon
    else if 17 <= hour < 21 then Evening
    else Night
  }

  /** The label a chunk starting at instant `start` gets. The month
      script's labels are the same (`LabelsAgree`). */
  function Label(start: int, index: nat): DayPart {
    SingleDayLabel(HourOf(start), index)
  }

  /** For every real hour the two label functions agree and ignore the chunk
      index; night is exactly the hours before 5 and from 21 on. */
  lemma LabelsAgree(hour: int, index: nat)
    requires 0 <= hour < 24
    ensures SingleDayLabel(hour, index) == MonthLabel(hour)
    ensures !MonthLabel(hour).Session?
    ensures MonthLabel(hour) == Night <==> (hour < 5 || 21 <= hour)
  {
  }

  /** Every chunk label of the single-day script is the one the month
      script gives, never a `session-N` label: the hour of an instant is
      always in 0..23. */
  lemma ChunkLabelsAgree(start: int, index: nat)
    ensures Label(start, index) == MonthLabel(HourOf(start))
    ensures !Label(start, index).Session?
  {
    LabelsAgree(HourOf(start), index);
  }

  /** The while loop splitting one long period, from `current_start` on. */
  function SplitFrom(cur: int, end: int, index: nat, maxSec: int): seq<Chunk>
    requires maxSec > 0
    decreases end - cur
  {
    if cur < end then
      var next := Min(cur + maxSec, end);
      [Chunk(cur, next, index)] + SplitFrom(next, end, index + 1, maxSec)
    else []
  }

  /** The chunks of one period: itself when it fits the limit, else the split. */
  function PeriodChunks(p: Period, index: nat, maxSec: int): seq<Chunk>
    requires maxSec > 0
  {
    if p.end - p.start <= maxSec then [Chunk(p.start, p.end, index)]
    else SplitFrom(p.start, p.end, index, maxSec)
  }

  /** The chunks `chunk_periods_by_duration` has produced after its first
      `n` periods; `chunk_index` is always one more than their number. */
  function ChunksUpTo(ps: seq<Period>, n: nat, maxSec: int): seq<Chunk>
    requires n <= |ps| && maxSec > 0
  {
    if n == 0 then []
    else
      var before := ChunksUpTo(ps, n - 1, maxSec);
      before + PeriodChunks(ps[n - 1], |before| + 1, maxSec)
  }

  function Chunks(ps: seq<Period>, maxHours: int): seq<Chunk>
    requires maxHours > 0
  {
    ChunksUpTo(ps, |ps|, 3600 * maxHours)
  }

  /** `chunk_periods_by_duration`. */
  method ChunkPeriodsByDuration(ps: seq<Period>, maxHours: int) returns (chunks: seq<Chunk>)
    requires maxHours > 0
    ensures chunks == Chunks(ps, maxHours)
  {
    var maxSec := 3600 * maxHours;
    chunks := [];
    var chunkIndex := 1;
    var i := 0;
    while i < |ps|
      invariant 0 <= i <= |ps|
      invariant chunks == ChunksUpTo(ps, i, maxSec) && chunkIndex == |chunks| + 1
    {
      var piece := ChunkPeriod(ps[i], chunkIndex, maxSec);
      var next := i + 1;
      ChunksUpToUnfold(ps, i, next, maxSec);
      chunks := chunks + piece;
      chunkIndex := chunkIndex + |piece|;
      i := next;
    }
  }

  /** The body of the outer loop of `chunk_periods_by_duration` for one
      period: kept whole when it fits, split otherwise. */
  method ChunkPeriod(p: Period, index: nat, maxSec: int) returns (piece: seq<Chunk>)
    requires maxSec > 0
    ensures piece == PeriodChunks(p, index, maxSec)
  {
    if p.end - p.start <= maxSec {
      piece := [Chunk(p.start, p.end, index)];
    } else {
      piece := SplitPeriod(p, index, maxSec);
    }
  }

  /** One unfolding of `ChunksUpTo`, with the previous count `k` named
      by the caller. */
  lemma ChunksUpToUnfold(ps: seq<Period>, k: nat, n: nat, maxSec: int)
    requires n == k + 1 <= |ps| && maxSec > 0
    ensures ChunksUpTo(ps, n, maxSec)
      == ChunksUpTo(ps, k, maxSec) + PeriodChunks(ps[k], |ChunksUpTo(ps, k, maxSec)| + 1, maxSec)
  {
  }

  /** The inner loop of `chunk_periods_by_duration` over one long period;
      the chunk index advances by one per chunk. */
  method SplitPeriod(p: Period, index: nat, maxSec: int) returns (piece: seq<Chunk>)
    requires maxSec > 0
    ensures piece == SplitFrom(p.start, p.end, index, maxSec)
  {
    piece := [];
    var currentStart := p.start;
    var chunkIndex := index;
    while currentStart < p.end
      invariant chunkIndex == index + |piece|
      invariant piece + SplitFrom(currentStart, p.end, chunkIndex, maxSec)
        == SplitFrom(p.start, p.end, index, maxSec)
      decreases p.end - currentStart
    {
      var currentEnd := Min(currentStart + maxSec, p.end);
      var c := Chunk(currentStart, currentEnd, chunkIndex);
      AppendAssoc(piece, [c], SplitFrom(currentEnd, p.end, chunkIndex + 1, maxSec));
      piece := piece + [c];
      currentStart := currentEnd;
      chunkIndex := chunkIndex + 1;
    }
    assert piece + [] == piece;
  }

  /** Chunks in order, each starting where the previous one ends. */
  predicate Contiguous(c: seq<Chunk>) {
    forall k :: 0 <= k < |c| - 1 ==> c[k].end == c[k + 1].start
  }

  /** `c` covers `[a, b]` exactly, without gaps or overlaps. */
  predicate Tiling(c: seq<Chunk>, a: int, b: int) {
    |c| >= 1 && c[0].start == a && c[|c| - 1].end == b && Contiguous(c)
  }

  predicate AtMost(c: seq<Chunk>, maxSec: int) {
    forall k :: 0 <= k < |c| ==> 0 <= c[k].end - c[k].start <= maxSec
  }

  predicate FullUntilLast(c: seq<Chunk>, maxSec: int) {
    forall k :: 0 <= k < |c| - 1 ==> c[k].end - c[k].start == maxSec
  }

  predicate NonEmptyChunks(c: seq<Chunk>) {
    forall k :: 0 <= k < |c| ==> c[k].start < c[k].end
  }

  /** Chunk `k` was made with chunk index `index + k`, so it is labelled
      `Label(c[k].start, index + k)`. */
  predicate LabelledFrom(c: seq<Chunk>, index: nat) {
    forall k :: 0 <= k < |c| ==> c[k].index == index + k
  }

  lemma ConsTiling(x: Chunk, rest: seq<Chunk>, b: int, maxSec: int)
    requires Tiling(rest, x.end, b) && AtMost(rest, maxSec) && FullUntilLast(rest, maxSec) && NonEmptyChunks(rest)
    requires x.start < x.end && x.end - x.start == maxSec
    ensures Tiling([x] + rest, x.start, b) && AtMost([x] + rest, maxSec)
    ensures FullUntilLast([x] + rest, maxSec) && NonEmptyChunks([x] + rest)
  {
    var c := [x] + rest;
    forall k | 1 <= k < |c| ensures c[k] == rest[k - 1] { }
  }

  /** A split tiles `[cur, end]`: it starts at `cur`, each chunk starts where
      the previous one ended, the last ends at `end`; every chunk is
      non-empty and at most `maxSec` long, and all but the last are exactly
      `maxSec` long. */
  lemma {:induction false} SplitTiles(cur: int, end: int, index: nat, maxSec: int)
    requires maxSec > 0 && cur < end
    ensures Tiling(SplitFrom(cur, end, index, maxSec), cur, end)
    ensures AtMost(SplitFrom(cur, end, index, maxSec), maxSec)
    ensures FullUntilLast(SplitFrom(cur, end, index, maxSec), maxSec)
    ensures NonEmptyChunks(SplitFrom(cur, end, index, maxSec))
    decreases end - cur
  {
    var next := Min(cur + maxSec, end);
    var x := Chunk(cur, next, index);
    var rest := SplitFrom(next, end, index + 1, maxSec);
    assert SplitFrom(cur, end, index, maxSec) == [x] + rest;
    if next < end {
      SplitTiles(next, end, index + 1, maxSec);
      ConsTiling(x, rest, end, maxSec);
    } else {
      assert rest == [];
      assert [x] + rest == [x];
    }
  }

  /** Chunk `k` of a split carries index `index + k`. */
  lemma {:induction false} SplitLabels(cur: int, end: int, index: nat, maxSec: int)
    requires maxSec > 0
    ensures LabelledFrom(SplitFrom(cur, end, index, maxSec), index)
    decreases end - cur
  {
    if cur < end {
      var next := Min(cur + maxSec, end);
      var rest := SplitFrom(next, end, index + 1, maxSec);
      var c := SplitFrom(cur, end, index, maxSec);
      SplitLabels(next, end, index + 1, maxSec);
      assert c == [Chunk(cur, next, index)] + rest;
      forall k | 1 <= k < |c| ensures c[k].index == index + k {
        assert c[k] == rest[k - 1];
      }
    }
  }

  /** Every period with start <= end is tiled by its chunks, each at most
      `maxSec` long; one that fits the limit, a zero-length one included,
      is kept whole as a single chunk. */
  lemma PeriodChunksTile(p: Period, index: nat, maxSec: int)
    requires maxSec > 0 && p.start <= p.end
    ensures Tiling(PeriodChunks(p, index, maxSec), p.start, p.end)
    ensures AtMost(PeriodChunks(p, index, maxSec), maxSec)
    ensures p.end - p.start <= maxSec ==> PeriodChunks(p, index, maxSec) == [Chunk(p.start, p.end, index)]
  {
    if p.end - p.start > maxSec {
      SplitTiles(p.start, p.end, index, maxSec);
    }
  }

  lemma PeriodChunksLabelled(p: Period, index: nat, maxSec: int)
    requires maxSec > 0
    ensures LabelledFrom(PeriodChunks(p, index, maxSec), index)
  {
    if p.end - p.start > maxSec {
      SplitLabels(p.start, p.end, index, maxSec);
    }
  }

  lemma LabelledAppend(a: seq<Chunk>, b: seq<Chunk>, index: nat)
    requires LabelledFrom(a, index) && LabelledFrom(b, index + |a|)
    ensures LabelledFrom(a + b, index)
  {
    forall k | |a| <= k < |a| + |b| ensures (a + b)[k] == b[k - |a|] { }
  }

  /** Chunk `k` of the whole plan carries index `k + 1`: `chunk_index` counts
      chunks across all periods. */
  lemma {:induction false} ChunkIndices(ps: seq<Period>, n: nat, maxSec: int)
    requires n <= |ps| && maxSec > 0
    ensures LabelledFrom(ChunksUpTo(ps, n, maxSec), 1)
  {
    if n > 0 {
      var k := n - 1;
      var before := ChunksUpTo(ps, k, maxSec);
      ChunksUpToUnfold(ps, k, n, maxSec);
      PeriodChunksLabelled(ps[k], |before| + 1, maxSec);
      ChunkIndices(ps, k, maxSec);
      LabelledAppend(before, PeriodChunks(ps[k], |before| + 1, maxSec), 1);
    }
  }

  function TotalSeconds(cs: seq<Chunk>): int {
    if cs == [] then 0 else cs[0].end - cs[0].start + TotalSeconds(cs[1..])
  }

  /** The summed length of the first `n` periods. */
  function PeriodSecondsUpTo(ps: seq<Period>, n: nat): int
    requires n <= |ps|
  {
    if n == 0 then 0 else PeriodSecondsUpTo(ps, n - 1) + (ps[n - 1].end - ps[n - 1].start)
  }

  lemma {:induction false} TotalSecondsAppend(a: seq<Chunk>, b: seq<Chunk>)
    ensures TotalSeconds(a + b) == TotalSeconds(a) + TotalSeconds(b)
  {
    if a == [] {
      assert a + b == b;
    } else {
      assert (a + b)[0] == a[0];
      assert (a + b)[1..] == a[1..] + b;
      TotalSecondsAppend(a[1..], b);
    }
  }

  lemma {:induction false} SplitSeconds(cur: int, end: int, index: nat, maxSec: int)
    requires maxSec > 0 && cur <= end
    ensures TotalSeconds(SplitFrom(cur, end, index, maxSec)) == end - cur
    decreases end - cur
  {
    if cur < end {
      var next := Min(cur + maxSec, end);
      SplitSeconds(next, end, index + 1, maxSec);
      var c := SplitFrom(cur, end, index, maxSec);
      assert c[1..] == SplitFrom(next, end, index + 1, maxSec);
    }
  }

  lemma PeriodChunkSeconds(p: Period, index: nat, maxSec: int)
    requires maxSec > 0
    ensures TotalSeconds(PeriodChunks(p, index, maxSec)) == p.end - p.start
  {
    if p.end - p.start > maxSec {
      SplitSeconds(p.start, p.end, index, maxSec);
    } else {
      var c := PeriodChunks(p, index, maxSec);
      assert c[1..] == [];
    }
  }

  /** Chunking neither adds nor drops recording time: the chunk lengths add
      up to the period lengths. In seconds, this is the `duration_hours`
      total of the month script. */
  lemma {:induction false} ChunkSeconds(ps: seq<Period>, n: nat, maxSec: int)
    requires n <= |ps| && maxSec > 0
    ensures TotalSeconds(ChunksUpTo(ps, n, maxSec)) == PeriodSecondsUpTo(ps, n)
  {
    if n > 0 {
      var k := n - 1;
      ChunkSeconds(ps, k, maxSec);
      ChunkSecondsStep(ps, k, n, maxSec);
      PeriodSecondsStep(ps, k, n);
    }
  }

  lemma PeriodSecondsStep(ps: seq<Period>, k: nat, n: nat)
    requires n == k + 1 <= |ps|
    ensures PeriodSecondsUpTo(ps, n) == PeriodSecondsUpTo(ps, k) + (ps[k].end - ps[k].start)
  {
  }

  /** One step of `ChunkSeconds`: period `k` adds its own length. */
  lemma ChunkSecondsStep(ps: seq<Period>, k: nat, n: nat, maxSec: int)
    requires n == k + 1 <= |ps| && maxSec > 0
    ensures TotalSeconds(ChunksUpTo(ps, n, maxSec))
      == TotalSeconds(ChunksUpTo(ps, k, maxSec)) + (ps[k].end - ps[k].start)
  {
    var before := ChunksUpTo(ps, k, maxSec);
    var piece := PeriodChunks(ps[k], |before| + 1, maxSec);
    ChunksUpToUnfold(ps, k, n, maxSec);
    TotalSecondsAppend(before, piece);
    PeriodChunkSeconds(ps[k], |before| + 1, maxSec);
  }

  /** The download file name of a chunk: `{date}-{label}-{HHMM}.ogg`. */
  function ChunkFileName(dateStr: string, c: Chunk): string {
    dateStr + "-" + c.TimeLabel().Text() + "-" + Padded(HourOf(c.start), 2) + Padded(MinuteOf(c.start), 2) + ".ogg"
  }

  /** The whole plan of one run: periods, sessions, chunks. */
  function Plan(data: LifelogData, minGapMinutes: int): seq<Chunk> {
    Chunks(Merge(Cluster(SortedDistinct(Timestamps(data))), 60 * minGapMinutes), MaxDurationHours)
  }

  predicate InChunk(x: int, cs: seq<Chunk>) {
    exists k :: 0 <= k < |cs| && cs[k].start <= x <= cs[k].end
  }

  /** End to end: every instant the lifelog yields is inside some chunk of
      the plan, so no recorded moment is left out of the download. */
  lemma PlanCoversEveryInstant(data: LifelogData, minGapMinutes: int, x: int)
    requires x in Timestamps(data)
    ensures InChunk(x, Plan(data, minGapMinutes))
  {
    var ts := SortedDistinct(Timestamps(data));
    var sessions := Merge(Cluster(ts), 60 * minGapMinutes);
    var m := SessionOf(ts, 60 * minGapMinutes, x);
    var k := ChunkOfSession(sessions, |sessions|, 3600 * MaxDurationHours, m, x);
    var cs := Plan(data, minGapMinutes);
    assert cs == ChunksUpTo(sessions, |sessions|, 3600 * MaxDurationHours);
    assert cs[k].start <= x <= cs[k].end;
  }

  /** Locates the merged session containing instant `x`. */
  lemma SessionOf(ts: seq<int>, gapSec: int, x: int) returns (m: nat)
    requires StrictlyIncreasing(ts) && x in ts
    ensures m < |Merge(Cluster(ts), gapSec)|
    ensures Merge(Cluster(ts), gapSec)[m].start <= x <= Merge(Cluster(ts), gapSec)[m].end
  {
    var ps := Cluster(ts);
    var sessions := Merge(ps, gapSec);
    ClusterCoversInstant(ts, x);
    var q :| 0 <= q < |ps| && ps[q].start <= x <= ps[q].end;
    ClusterFeedsMerge(ts);
    MergeCovers(ps, gapSec);
    assert Within(ps[q], sessions);
    m :| 0 <= m < |sessions| && sessions[m].start <= ps[q].start && ps[q].end <= sessions[m].end;
  }

  lemma ClusterCoversInstant(ts: seq<int>, x: int)
    requires StrictlyIncreasing(ts) && x in ts
    ensures Covered(x, Cluster(ts))
  {
    ClusterShape(ts);
    var j :| 0 <= j < |ts| && ts[j] == x;
    assert CoversFrom(ts, 0, Cluster(ts));
  }

  /** Locates the chunk containing instant `x` of session `m`. */
  lemma {:induction false} ChunkOfSession(ps: seq<Period>, n: nat, maxSec: int, m: nat, x: int)
    returns (k: nat)
    requires m < n <= |ps| && maxSec > 0 && ps[m].start <= x <= ps[m].end
    ensures k < |ChunksUpTo(ps, n, maxSec)|
    ensures ChunksUpTo(ps, n, maxSec)[k].start <= x <= ChunksUpTo(ps, n, maxSec)[k].end
  {
    var prev := n - 1;
    if m < prev {
      var j := ChunkOfSession(ps, prev, maxSec, m, x);
      k := EarlierChunk(ps, prev, n, maxSec, j, x);
    } else {
      assert ps[m] == ps[prev];
      k := LastChunk(ps, prev, n, maxSec, x);
    }
  }

  /** A chunk made before period `k` that contains `x` keeps its place once
      period `k` is chunked. */
  lemma EarlierChunk(ps: seq<Period>, k: nat, n: nat, maxSec: int, j: nat, x: int) returns (i: nat)
    requires n == k + 1 <= |ps| && maxSec > 0 && j < |ChunksUpTo(ps, k, maxSec)|
    requires ChunksUpTo(ps, k, maxSec)[j].start <= x <= ChunksUpTo(ps, k, maxSec)[j].end
    ensures i < |ChunksUpTo(ps, n, maxSec)|
    ensures ChunksUpTo(ps, n, maxSec)[i].start <= x <= ChunksUpTo(ps, n, maxSec)[i].end
  {
    ChunksUpToUnfold(ps, k, n, maxSec);
    i := j;
    AppendIndex(ChunksUpTo(ps, k, maxSec), PeriodChunks(ps[k], |ChunksUpTo(ps, k, maxSec)| + 1, maxSec), ChunksUpTo(ps, n, maxSec), i);
  }

  /** Each instant of period `k` lies in one of the chunks it adds. */
  lemma LastChunk(ps: seq<Period>, k: nat, n: nat, maxSec: int, x: int) returns (i: nat)
    requires n == k + 1 <= |ps| && maxSec > 0 && ps[k].start <= x <= ps[k].end
    ensures i < |ChunksUpTo(ps, n, maxSec)|
    ensures ChunksUpTo(ps, n, maxSec)[i].start <= x <= ChunksUpTo(ps, n, maxSec)[i].end
  {
    var before := ChunksUpTo(ps, k, maxSec);
    var c := PeriodChunks(ps[k], |before| + 1, maxSec);
    PeriodChunksTile(ps[k], |before| + 1, maxSec);
    var j := ChunkContaining(c, ps[k], x);
    ChunksUpToUnfold(ps, k, n, maxSec);
    i := |before| + j;
    AppendIndex(before, c, ChunksUpTo(ps, n, maxSec), i);
  }

  /** In a tiling of `p`, some chunk contains each instant of `p`. */
  lemma ChunkContaining(c: seq<Chunk>, p: Period, x: int) returns (k: nat)
    requires Tiling(c, p.start, p.end) && p.start <= x <= p.end
    ensures k < |c| && c[k].start <= x <= c[k].end
  {
    k := 0;
    while k < |c| - 1 && c[k].end < x
      invariant 0 <= k < |c| && c[k].start <= x
    {
      k := k + 1;
    }
  }
}
