// The lifelog coverage check: how the server's lifelogs split into dated
// and undated ones, their date range, and how many of them a backup that
// covers a fixed range of days would miss.
module LifelogCoverage {
  import opened Common
  import opened Calendar

  // ----- Lifelogs and their start times -----

  /** A `startedAt` that `datetime.fromisoformat` accepted once a trailing
      `Z` was written `+00:00`: its wall-clock date and second of the day,
      and its UTC offset in seconds (`None` for a naive timestamp). */
  datatype Moment = Moment(date: ValidDate, second: int, offset: Option<int>)

  /** The two fields the check reads from each lifelog. */
  datatype Lifelog = Lifelog(id: Option<string>, startedAt: Stamp<Moment>)

  predicate Aware(m: Moment) {
    m.offset.Some?
  }

  /** The moment on one time line: seconds since the ordinal epoch, in UTC
      for an aware moment and on the wall clock for a naive one. */
  function Timeline(m: Moment): int {
    Ordinal(m.date) * 86400 + m.second - (if Aware(m) then m.offset.value else 0)
  }

  /** `a < b` between two datetimes; `None` when one is naive and the other
      aware, where Python raises `TypeError`. */
  function Before(a: Moment, b: Moment): (r: Option<bool>)
    ensures r.None? <==> Aware(a) != Aware(b)
    ensures r.Some? ==> (r.value <==> Timeline(a) < Timeline(b))
  {
    if Aware(a) != Aware(b) then None else Some(Timeline(a) < Timeline(b))
  }

  /** The date a lifelog is counted under: the date of its parsed start. */
  function DateOf(x: Lifelog): Option<ValidDate> {
    if x.startedAt.At? then Some(x.startedAt.value.date) else None
  }

  // ----- analyze_lifelogs -----

  /** The loop's state: `by_date`, `undated`, `earliest` and `latest`. */
  datatype Coverage = Coverage(byDate: map<ValidDate, nat>, undated: seq<Option<string>>,
                               earliest: Option<Moment>, latest: Option<Moment>)

  const Start := Coverage(map[], [], None, None)

  /** One lifelog read by the loop as it is written: the date is counted
      before the comparisons, so a lifelog whose comparison raises is
      counted under its date and listed as undated. */
  function StepAsWritten(c: Coverage, x: Lifelog): Coverage {
    match x.startedAt
    case At(m) =>
      var counted := c.(byDate := c.byDate[m.date := CountOf(c.byDate, m.date) + 1]);
      var lt := if c.earliest.None? then Some(true) else Before(m, c.earliest.value);
      if lt.None? then counted.(undated := c.undated + [x.id])
      else
        var lower := if lt.value then counted.(earliest := Some(m)) else counted;
        var gt := if c.latest.None? then Some(true) else Before(c.latest.value, m);
        if gt.None? then lower.(undated := c.undated + [x.id])
        else if gt.value then lower.(latest := Some(m)) else lower
    case _ => c.(undated := c.undated + [x.id])
  }

  function AnalysisAsWritten(logs: seq<Lifelog>): Coverage {
    if logs == [] then Start else StepAsWritten(AnalysisAsWritten(logs[..|logs| - 1]), logs[|logs| - 1])
  }

  /** One lifelog read by the loop with both comparisons made before the
      date is counted: a lifelog lands either under its date or among the
      undated ones. */
  function Step(c: Coverage, x: Lifelog): Coverage {
    match x.startedAt
    case At(m) =>
      var lt := if c.earliest.None? then Some(true) else Before(m, c.earliest.value);
      var gt := if c.latest.None? then Some(true) else Before(c.latest.value, m);
      if lt.None? || gt.None? then c.(undated := c.undated + [x.id])
      else Coverage(c.byDate[m.date := CountOf(c.byDate, m.date) + 1], c.undated,
                    if lt.value then Some(m) else c.earliest,
                    if gt.value then Some(m) else c.latest)
    case _ => c.(undated := c.undated + [x.id])
  }

  function Analysis(logs: seq<Lifelog>): Coverage {
    if logs == [] then Start else Step(Analysis(logs[..|logs| - 1]), logs[|logs| - 1])
  }

  /** `analyze_lifelogs`. */
  method AnalyzeLifelogs(logs: seq<Lifelog>) returns (c: Coverage)
    ensures c == Analysis(logs)
  {
    var byDate: map<ValidDate, nat> := map[];
    var undated: seq<Option<string>> := [];
    var earliest: Option<Moment> := None;
    var latest: Option<Moment> := None;
    var i := 0;
    while i < |logs|
      invariant 0 <= i <= |logs|
      invariant Coverage(byDate, undated, earliest, latest) == Analysis(logs[..i])
    {
      var x := logs[i];
      assert logs[..i + 1][..i] == logs[..i];
      if x.startedAt.At? {
        var m := x.startedAt.value;
        var lt := if earliest.None? then Some(true) else Before(m, earliest.value);
        var gt := if latest.None? then Some(true) else Before(latest.value, m);
        if lt.None? || gt.None? {
          undated := undated + [x.id];
        } else {
          byDate := byDate[m.date := CountOf(byDate, m.date) + 1];
          if lt.value {
            earliest := Some(m);
          }
          if gt.value {
            latest := Some(m);
          }
        }
      } else {
        undated := undated + [x.id];
      }
      i := i + 1;
    }
    assert logs[..i] == logs;
    c := Coverage(byDate, undated, earliest, latest);
  }

  // ----- Which lifelogs are dated -----

  /** Whether the first parsed start time of `xs` is aware; `None` when no
      start time parsed. Every later start time is compared against it. */
  function FirstAware(xs: seq<Lifelog>): (r: Option<bool>)
    ensures r.None? <==> forall i :: 0 <= i < |xs| ==> !xs[i].startedAt.At?
  {
    if xs == [] then None
    else
      var f := FirstAware(xs[..|xs| - 1]);
      var x := xs[|xs| - 1];
      assert forall i :: 0 <= i < |xs| - 1 ==> xs[..|xs| - 1][i] == xs[i];
      if f.Some? then f else if x.startedAt.At? then Some(Aware(x.startedAt.value)) else None
  }

  /** A start time that parsed, naive or aware as `aware` says. */
  function Fits(aware: bool): Lifelog -> bool {
    (x: Lifelog) => x.startedAt.At? && Aware(x.startedAt.value) == aware
  }

  function Misfits(aware: bool): Lifelog -> bool {
    (x: Lifelog) => !Fits(aware)(x)
  }

  /** The lifelogs counted under a date. */
  function Accepted(xs: seq<Lifelog>): seq<Lifelog> {
    match FirstAware(xs)
    case None => []
    case Some(w) => Filter(xs, Fits(w))
  }

  /** The lifelogs listed as undated. */
  function Rejected(xs: seq<Lifelog>): seq<Lifelog> {
    match FirstAware(xs)
    case None => xs
    case Some(w) => Filter(xs, Misfits(w))
  }

  function Ids(xs: seq<Lifelog>): (r: seq<Option<string>>)
    ensures |r| == |xs|
  {
    seq(|xs|, i requires 0 <= i < |xs| => xs[i].id)
  }

  /** Every lifelog is either accepted or rejected. */
  lemma AcceptedPlusRejected(xs: seq<Lifelog>)
    ensures |Accepted(xs)| + |Rejected(xs)| == |xs|
  {
    if FirstAware(xs).Some? {
      var w := FirstAware(xs).value;
      FilterPartition(xs, Fits(w), Misfits(w));
    }
  }

  /** Whether the loop, having read `ys` up to and including `x`, counts
      `x` under its date. */
  predicate Admits(ys: seq<Lifelog>, x: Lifelog) {
    FirstAware(ys).Some? && Fits(FirstAware(ys).value)(x)
  }

  lemma FirstAwareSnoc(xs: seq<Lifelog>, x: Lifelog)
    ensures FirstAware(xs + [x]) == if FirstAware(xs).Some? then FirstAware(xs)
      else if x.startedAt.At? then Some(Aware(x.startedAt.value)) else None
  {
    assert (xs + [x])[..|xs|] == xs;
  }

  lemma SplitSnocKnown(xs: seq<Lifelog>, x: Lifelog, w: bool)
    requires FirstAware(xs) == Some(w)
    ensures Accepted(xs + [x]) == Filter(xs, Fits(w)) + if Fits(w)(x) then [x] else []
    ensures Rejected(xs + [x]) == Filter(xs, Misfits(w)) + if Fits(w)(x) then [] else [x]
  {
    FirstAwareSnoc(xs, x);
    assert Accepted(xs + [x]) == Filter(xs + [x], Fits(w));
    assert Rejected(xs + [x]) == Filter(xs + [x], Misfits(w));
    FilterAppendOne(xs, x, Fits(w));
    FilterAppendOne(xs, x, Misfits(w));
  }

  lemma SplitSnocFirst(xs: seq<Lifelog>, x: Lifelog)
    requires FirstAware(xs).None? && x.startedAt.At?
    ensures Accepted(xs + [x]) == [x]
    ensures Rejected(xs + [x]) == xs
  {
    var w := Aware(x.startedAt.value);
    FirstAwareSnoc(xs, x);
    assert Accepted(xs + [x]) == Filter(xs + [x], Fits(w));
    assert Rejected(xs + [x]) == Filter(xs + [x], Misfits(w));
    FilterAppendOne(xs, x, Fits(w));
    FilterAppendOne(xs, x, Misfits(w));
    FilterNonePass(xs, Fits(w));
    FilterAllPass(xs, Misfits(w));
  }

  /** One more lifelog goes to exactly one side. */
  lemma SplitSnoc(xs: seq<Lifelog>, x: Lifelog)
    ensures Accepted(xs + [x]) == Accepted(xs) + if Admits(xs + [x], x) then [x] else []
    ensures Rejected(xs + [x]) == Rejected(xs) + if Admits(xs + [x], x) then [] else [x]
  {
    FirstAwareSnoc(xs, x);
    if FirstAware(xs).Some? {
      SplitSnocKnown(xs, x, FirstAware(xs).value);
    } else if x.startedAt.At? {
      SplitSnocFirst(xs, x);
    } else {
      assert FirstAware(xs + [x]).None?;
      assert !Admits(xs + [x], x);
    }
  }

  /** Both ends are unset before the first parsed start time and have its
      awareness after it. */
  ghost predicate Ends(xs: seq<Lifelog>, c: Coverage) {
    match FirstAware(xs)
    case None => c.earliest.None? && c.latest.None?
    case Some(w) => c.earliest.Some? && c.latest.Some? && Aware(c.earliest.value) == w && Aware(c.latest.value) == w
  }

  /** What one step of the loop does, in terms of `Admits`. */
  lemma StepCases(xs: seq<Lifelog>, x: Lifelog, c: Coverage)
    requires Ends(xs, c)
    ensures Ends(xs + [x], Step(c, x))
    ensures !Admits(xs + [x], x) ==> Step(c, x) == c.(undated := c.undated + [x.id])
    ensures Admits(xs + [x], x) ==> Step(c, x).undated == c.undated
    ensures Admits(xs + [x], x) ==> Step(c, x).byDate == Tick(c.byDate, x.startedAt.value.date)
    ensures Admits(xs + [x], x) ==> Step(c, x).earliest == Lower(c.earliest, x.startedAt.value)
    ensures Admits(xs + [x], x) ==> Step(c, x).latest == Upper(c.latest, x.startedAt.value)
  {
    FirstAwareSnoc(xs, x);
    var ys := xs + [x];
    if !x.startedAt.At? {
      assert FirstAware(ys) == FirstAware(xs) && !Admits(ys, x);
    } else if FirstAware(xs).None? {
      StepFirst(c, x);
      assert Admits(ys, x);
    } else {
      var w := FirstAware(xs).value;
      StepKnown(c, x, w);
      assert FirstAware(ys) == Some(w);
      assert Admits(ys, x) <==> Aware(x.startedAt.value) == w;
    }
  }

  /** The first parsed start time sets both ends and is counted. */
  lemma StepFirst(c: Coverage, x: Lifelog)
    requires x.startedAt.At? && c.earliest.None? && c.latest.None?
    ensures var m := x.startedAt.value;
      Step(c, x) == Coverage(Tick(c.byDate, m.date), c.undated, Some(m), Some(m))
  {
  }

  /** A later parsed start time is counted exactly when its awareness is the
      ends' awareness, and otherwise listed as undated. */
  lemma StepKnown(c: Coverage, x: Lifelog, w: bool)
    requires x.startedAt.At? && c.earliest.Some? && c.latest.Some?
    requires Aware(c.earliest.value) == w && Aware(c.latest.value) == w
    ensures var m := x.startedAt.value;
      Aware(m) != w ==> Step(c, x) == c.(undated := c.undated + [x.id])
    ensures var m := x.startedAt.value;
      Aware(m) == w ==> Step(c, x) == Coverage(Tick(c.byDate, m.date), c.undated, Lower(c.earliest, m), Upper(c.latest, m))
  {
    var m := x.startedAt.value;
    if Aware(m) == w {
      assert Before(m, c.earliest.value) == Some(Timeline(m) < Timeline(c.earliest.value));
      assert Before(c.latest.value, m) == Some(Timeline(c.latest.value) < Timeline(m));
    }
  }

  /** `by_date[date_str] += 1`. */
  function Tick(byDate: map<ValidDate, nat>, d: ValidDate): (r: map<ValidDate, nat>)
    ensures d in r && r[d] == CountOf(byDate, d) + 1
    ensures forall e :: e != d ==> CountOf(r, e) == CountOf(byDate, e)
  {
    byDate[d := CountOf(byDate, d) + 1]
  }

  /** The earlier of the current earliest and `m`. */
  function Lower(lo: Option<Moment>, m: Moment): Option<Moment> {
    if lo.None? || Timeline(m) < Timeline(lo.value) then Some(m) else lo
  }

  /** The later of the current latest and `m`. */
  function Upper(hi: Option<Moment>, m: Moment): Option<Moment> {
    if hi.None? || Timeline(hi.value) < Timeline(m) then Some(m) else hi
  }

  /** The undated list and the per-date counts after reading `xs`. */
  ghost predicate Split(xs: seq<Lifelog>, c: Coverage) {
    c.undated == Ids(Rejected(xs)) && c.byDate == Counts(Accepted(xs), DateOf)
  }

  lemma IdsSnoc(xs: seq<Lifelog>, x: Lifelog)
    ensures Ids(xs + [x]) == Ids(xs) + [x.id]
  {
  }

  /** The split after one more lifelog counted under its date. */
  lemma SplitAdmit(xs: seq<Lifelog>, x: Lifelog, c: Coverage, d: Coverage)
    requires Split(xs, c) && Admits(xs + [x], x)
    requires d.undated == c.undated && d.byDate == Tick(c.byDate, x.startedAt.value.date)
    ensures Split(xs + [x], d)
  {
    var acc := Accepted(xs);
    assert Accepted(xs + [x]) == acc + [x] && Rejected(xs + [x]) == Rejected(xs) by {
      SplitSnoc(xs, x);
    }
    CountsTick(acc, x);
  }

  /** Counting one more parsed start time ticks its date. */
  lemma CountsTick(acc: seq<Lifelog>, x: Lifelog)
    requires x.startedAt.At?
    ensures Counts(acc + [x], DateOf) == Tick(Counts(acc, DateOf), x.startedAt.value.date)
  {
    CountsSnoc(acc, x, DateOf);
    assert DateOf(x) == Some(x.startedAt.value.date);
  }

  /** The split after one more lifelog listed as undated. */
  lemma SplitReject(xs: seq<Lifelog>, x: Lifelog, c: Coverage, d: Coverage)
    requires Split(xs, c) && !Admits(xs + [x], x)
    requires d.undated == c.undated + [x.id] && d.byDate == c.byDate
    ensures Split(xs + [x], d)
  {
    SplitSnoc(xs, x);
    assert Accepted(xs + [x]) == Accepted(xs);
    assert Rejected(xs + [x]) == Rejected(xs) + [x];
    IdsSnoc(Rejected(xs), x);
  }

  lemma StepSplit(xs: seq<Lifelog>, x: Lifelog, c: Coverage)
    requires Ends(xs, c) && Split(xs, c)
    ensures Split(xs + [x], Step(c, x))
  {
    StepCases(xs, x, c);
    if Admits(xs + [x], x) {
      SplitAdmit(xs, x, c, Step(c, x));
    } else {
      SplitReject(xs, x, c, Step(c, x));
    }
  }

  /** `lo` and `hi` are start times of `acc`, and every start time of `acc`
      lies between them. */
  ghost predicate Bounded(acc: seq<Lifelog>, lo: Moment, hi: Moment) {
    && (exists i :: 0 <= i < |acc| && acc[i].startedAt == At(lo))
    && (exists i :: 0 <= i < |acc| && acc[i].startedAt == At(hi))
    && forall i :: 0 <= i < |acc| ==>
      (acc[i].startedAt.At? && Timeline(lo) <= Timeline(acc[i].startedAt.value) <= Timeline(hi))
  }

  ghost predicate Bounds(xs: seq<Lifelog>, c: Coverage) {
    c.earliest.Some? && c.latest.Some? ==> Bounded(Accepted(xs), c.earliest.value, c.latest.value)
  }

  /** Accepting one more start time moves each end past it if needed. */
  lemma BoundedSnoc(acc: seq<Lifelog>, x: Lifelog, lo: Option<Moment>, hi: Option<Moment>)
    requires x.startedAt.At?
    requires lo.Some? <==> hi.Some?
    requires lo.Some? ==> Bounded(acc, lo.value, hi.value)
    requires lo.None? ==> acc == []
    ensures Bounded(acc + [x], Lower(lo, x.startedAt.value).value, Upper(hi, x.startedAt.value).value)
  {
    var m := x.startedAt.value;
    var lo' := if lo.None? || Timeline(m) < Timeline(lo.value) then m else lo.value;
    var hi' := if hi.None? || Timeline(hi.value) < Timeline(m) then m else hi.value;
    var acc' := acc + [x];
    assert acc'[|acc|] == x;
    forall i | 0 <= i < |acc'|
      ensures acc'[i].startedAt.At? && Timeline(lo') <= Timeline(acc'[i].startedAt.value) <= Timeline(hi')
    {
      if i < |acc| {
        assert acc'[i] == acc[i];
      }
    }
    if lo' != m {
      var i :| 0 <= i < |acc| && acc[i].startedAt == At(lo');
      assert acc'[i] == acc[i];
    }
    if hi' != m {
      var i :| 0 <= i < |acc| && acc[i].startedAt == At(hi');
      assert acc'[i] == acc[i];
    }
  }

  /** The bounds after one more lifelog counted under its date. */
  lemma BoundsAdmit(xs: seq<Lifelog>, x: Lifelog, c: Coverage, d: Coverage)
    requires Ends(xs, c) && Bounds(xs, c) && Admits(xs + [x], x)
    requires d.earliest == Lower(c.earliest, x.startedAt.value) && d.latest == Upper(c.latest, x.startedAt.value)
    ensures Bounds(xs + [x], d)
  {
    assert Accepted(xs + [x]) == Accepted(xs) + [x] by {
      SplitSnoc(xs, x);
    }
    if c.earliest.None? {
      assert Accepted(xs) == [];
    }
    BoundedSnoc(Accepted(xs), x, c.earliest, c.latest);
  }

  /** The bounds after one more lifelog listed as undated. */
  lemma BoundsReject(xs: seq<Lifelog>, x: Lifelog, c: Coverage, d: Coverage)
    requires Bounds(xs, c) && !Admits(xs + [x], x)
    requires d.earliest == c.earliest && d.latest == c.latest
    ensures Bounds(xs + [x], d)
  {
    assert Accepted(xs + [x]) == Accepted(xs) by {
      SplitSnoc(xs, x);
    }
  }

  lemma StepBounds(xs: seq<Lifelog>, x: Lifelog, c: Coverage)
    requires Ends(xs, c) && Bounds(xs, c)
    ensures Bounds(xs + [x], Step(c, x))
  {
    StepCases(xs, x, c);
    if Admits(xs + [x], x) {
      BoundsAdmit(xs, x, c, Step(c, x));
    } else {
      BoundsReject(xs, x, c, Step(c, x));
    }
  }

  /** What the loop has established after reading `xs`. */
  ghost predicate Summarises(xs: seq<Lifelog>, c: Coverage) {
    Ends(xs, c) && Split(xs, c) && Bounds(xs, c)
  }

  lemma {:induction false} AnalysisSummarises(logs: seq<Lifelog>)
    ensures Summarises(logs, Analysis(logs))
    decreases |logs|
  {
    if logs == [] {
      CountsEmpty(Accepted(logs), DateOf);
    } else {
      var init, x := logs[..|logs| - 1], logs[|logs| - 1];
      assert init + [x] == logs;
      AnalysisSummarises(init);
      StepSplit(init, x, Analysis(init));
      StepBounds(init, x, Analysis(init));
      StepCases(init, x, Analysis(init));
    }
  }

  /** The undated list holds the ids of the lifelogs without a usable start
      time, in order, and `by_date` counts the others by date. */
  lemma AnalysisSplits(logs: seq<Lifelog>)
    ensures Analysis(logs).undated == Ids(Rejected(logs))
    ensures Analysis(logs).byDate == Counts(Accepted(logs), DateOf)
  {
    AnalysisSummarises(logs);
  }

  /** Each lifelog is counted once: the undated ones plus the per-date
      counts make up all of them. */
  lemma UndatedPlusDated(logs: seq<Lifelog>)
    ensures |Analysis(logs).undated| + SumValues(Analysis(logs).byDate) == |logs|
  {
    AnalysisSummarises(logs);
    var acc := Accepted(logs);
    CountsSum(acc, DateOf);
    AcceptedParsed(logs);
    FilterAllPass(acc, HasKey(DateOf));
    AcceptedPlusRejected(logs);
  }

  /** Accepted lifelogs have a parsed start time. */
  lemma AcceptedParsed(logs: seq<Lifelog>)
    ensures forall i :: 0 <= i < |Accepted(logs)| ==> Accepted(logs)[i].startedAt.At?
  {
    var acc := Accepted(logs);
    forall i | 0 <= i < |acc| ensures acc[i].startedAt.At? {
      assert acc[i] in acc;
    }
  }

  /** Some lifelog is accepted exactly when some start time parsed. */
  lemma AcceptedNonEmpty(logs: seq<Lifelog>)
    ensures Accepted(logs) == [] <==> FirstAware(logs).None?
  {
    if FirstAware(logs).Some? {
      var w := FirstAware(logs).value;
      var k :| 0 <= k < |logs| && logs[k].startedAt.At?;
      var j := FirstParsed(logs, k);
      FirstAwareIsFirst(logs, j);
      FilterNonEmpty(logs, Fits(w));
    }
  }

  /** Both ends are `None` exactly when no lifelog is dated; otherwise the
      earliest does not come after the latest, both are start times of
      dated lifelogs, and every dated start time lies between them. */
  lemma EarliestLatest(logs: seq<Lifelog>)
    ensures Analysis(logs).earliest.None? <==> Accepted(logs) == []
    ensures Analysis(logs).latest.None? <==> Accepted(logs) == []
    ensures Analysis(logs).earliest.Some? && Analysis(logs).latest.Some? ==>
      var lo, hi := Analysis(logs).earliest.value, Analysis(logs).latest.value;
      Timeline(lo) <= Timeline(hi) && Bounded(Accepted(logs), lo, hi)
  {
    AnalysisSummarises(logs);
    AcceptedNonEmpty(logs);
  }

  /** The position of the first parsed start time at or before `k`. */
  lemma {:induction false} FirstParsed(xs: seq<Lifelog>, k: nat) returns (j: nat)
    requires k < |xs| && xs[k].startedAt.At?
    ensures j < |xs| && xs[j].startedAt.At? && forall i :: 0 <= i < j ==> !xs[i].startedAt.At?
    decreases k
  {
    if exists i :: 0 <= i < k && xs[i].startedAt.At? {
      var i :| 0 <= i < k && xs[i].startedAt.At?;
      j := FirstParsed(xs, i);
    } else {
      j := k;
    }
  }

  /** The awareness that is fixed is that of the first parsed start time. */
  lemma {:induction false} FirstAwareIsFirst(xs: seq<Lifelog>, j: nat)
    requires j < |xs| && xs[j].startedAt.At? && forall i :: 0 <= i < j ==> !xs[i].startedAt.At?
    ensures FirstAware(xs) == Some(Aware(xs[j].startedAt.value))
    decreases |xs|
  {
    var init := xs[..|xs| - 1];
    if j < |xs| - 1 {
      assert init[j] == xs[j];
      FirstAwareIsFirst(init, j);
    } else {
      assert FirstAware(init).None?;
    }
  }

  // ----- main: the backup's range and what it misses -----

  /** `local_start` and `local_end`: the days the local backup covers. */
  const LocalStart: ValidDate := Date(2025, 2, 27)
  const LocalEnd: ValidDate := Date(2025, 12, 5)

  /** `dt < local_start or dt > local_end` for the midnight of `d`. */
  predicate Outside(d: ValidDate) {
    Ordinal(d) < Ordinal(LocalStart) || Ordinal(d) > Ordinal(LocalEnd)
  }

  /** `outside_range`, as a map from date to count. */
  function OutsideRange(byDate: map<ValidDate, nat>): map<ValidDate, nat> {
    map d | d in byDate && Outside(d) :: byDate[d]
  }

  /** The loop collecting `outside_range` and summing its counts. */
  method CollectOutside(byDate: map<ValidDate, nat>) returns (outside: map<ValidDate, nat>, total: nat)
    ensures outside == OutsideRange(byDate)
    ensures total == SumValues(outside)
  {
    outside, total := map[], 0;
    var rest := byDate;
    ghost var seen: set<ValidDate> := {};
    while rest != map[]
      invariant rest == byDate - seen
      invariant outside == OutsideAmong(byDate, seen)
      invariant total == SumValues(outside)
      decreases |rest|
    {
      var d :| d in rest;
      OutsideAmongStep(byDate, seen, d);
      if Outside(d) {
        var v := rest[d];
        SumValuesRemove(outside[d := v], d);
        assert outside[d := v] - {d} == outside;
        outside, total := outside[d := v], total + v;
      }
      seen := seen + {d};
      rest := rest - {d};
    }
    OutsideAmongAll(byDate, seen);
  }

  /** The part of `outside_range` found among the dates in `seen`. */
  ghost function OutsideAmong(byDate: map<ValidDate, nat>, seen: set<ValidDate>): map<ValidDate, nat> {
    map d | d in byDate && d in seen && Outside(d) :: byDate[d]
  }

  lemma OutsideAmongStep(byDate: map<ValidDate, nat>, seen: set<ValidDate>, d: ValidDate)
    requires d in byDate && d !in seen
    ensures byDate - seen - {d} == byDate - (seen + {d})
    ensures d !in OutsideAmong(byDate, seen)
    ensures OutsideAmong(byDate, seen + {d}) ==
      if Outside(d) then OutsideAmong(byDate, seen)[d := byDate[d]] else OutsideAmong(byDate, seen)
  {
    assert byDate - seen - {d} == byDate - (seen + {d});
  }

  lemma OutsideAmongAll(byDate: map<ValidDate, nat>, seen: set<ValidDate>)
    requires byDate - seen == map[]
    ensures OutsideAmong(byDate, seen) == OutsideRange(byDate)
  {
    forall d | d in byDate ensures d in seen {
      assert d !in byDate - seen;
    }
  }

  /** `total_missing`: the undated lifelogs and those counted under a date
      the backup does not cover. */
  ghost function TotalMissing(c: Coverage): int {
    |c.undated| + SumValues(OutsideRange(c.byDate))
  }

  /** The missing count is exactly the lifelogs that are not both dated and
      inside the covered range, so it is zero exactly when every lifelog is
      dated and inside it. */
  lemma MissingCount(logs: seq<Lifelog>)
    ensures TotalMissing(Analysis(logs)) == |logs| - |Filter(Accepted(logs), KeyIn(DateOf, Inside))|
    ensures TotalMissing(Analysis(logs)) == 0 <==>
      forall i :: 0 <= i < |logs| ==> logs[i] in Accepted(logs) && KeyIn(DateOf, Inside)(logs[i])
  {
    AnalysisSplits(logs);
    AcceptedPlusRejected(logs);
    OutsideSum(logs);
    InsideOutside(logs);
    MissingZero(logs);
  }

  /** The counts outside the range add up to the dated lifelogs outside it. */
  lemma OutsideSum(logs: seq<Lifelog>)
    ensures SumValues(OutsideRange(Analysis(logs).byDate)) == |Filter(Accepted(logs), KeyIn(DateOf, Outside))|
  {
    OutsideCounts(logs);
    CountsSumKeyIn(Accepted(logs), DateOf, Outside);
  }

  /** `outside_range` counts the dated lifelogs outside the range. */
  lemma OutsideCounts(logs: seq<Lifelog>)
    ensures OutsideRange(Analysis(logs).byDate) == Counts(Filter(Accepted(logs), KeyIn(DateOf, Outside)), DateOf)
  {
    AnalysisSplits(logs);
    OutsideOfCounts(Accepted(logs));
  }

  /** Restricting the per-date counts to dates outside the range counts the
      lifelogs dated outside it. */
  lemma OutsideOfCounts(acc: seq<Lifelog>)
    ensures OutsideRange(Counts(acc, DateOf)) == Counts(Filter(acc, KeyIn(DateOf, Outside)), DateOf)
  {
    var c := Counts(acc, DateOf);
    var f := Counts(Filter(acc, KeyIn(DateOf, Outside)), DateOf);
    var o := OutsideRange(c);
    CountsOfFiltered(acc, DateOf, Outside);
    forall d ensures (d in f <==> d in o) && (d in f ==> f[d] == o[d]) {
    }
    assert f == o;
  }

  predicate Inside(d: ValidDate) {
    !Outside(d)
  }

  /** A dated lifelog is either inside the range or outside it. */
  lemma InsideOutside(logs: seq<Lifelog>)
    ensures |Filter(Accepted(logs), KeyIn(DateOf, Outside))| + |Filter(Accepted(logs), KeyIn(DateOf, Inside))|
      == |Accepted(logs)|
  {
    var acc := Accepted(logs);
    AcceptedParsed(logs);
    forall x | x in acc ensures KeyIn(DateOf, Inside)(x) <==> !KeyIn(DateOf, Outside)(x) {
      var i :| 0 <= i < |acc| && acc[i] == x;
      assert DateOf(x).Some?;
    }
    FilterPartitionIn(acc, KeyIn(DateOf, Outside), KeyIn(DateOf, Inside));
  }

  /** Nothing is listed as undated exactly when every lifelog is accepted. */
  lemma RejectedEmpty(logs: seq<Lifelog>)
    ensures Rejected(logs) == [] <==> forall i :: 0 <= i < |logs| ==> logs[i] in Accepted(logs)
  {
    match FirstAware(logs)
    case None =>
      if logs != [] {
        assert logs[0] !in Accepted(logs);
      }
    case Some(w) =>
      FilterNonEmpty(logs, Misfits(w));
  }

  /** All lifelogs are dated and inside the range exactly when the dated
      ones inside the range are as many as all of them. */
  lemma MissingZero(logs: seq<Lifelog>)
    ensures |Filter(Accepted(logs), KeyIn(DateOf, Inside))| == |logs| <==>
      forall i :: 0 <= i < |logs| ==> logs[i] in Accepted(logs) && KeyIn(DateOf, Inside)(logs[i])
  {
    var acc := Accepted(logs);
    AcceptedPlusRejected(logs);
    RejectedEmpty(logs);
    FilterKeepsAll(acc, KeyIn(DateOf, Inside));
    assert |Filter(acc, KeyIn(DateOf, Inside))| <= |acc|;
    if forall i :: 0 <= i < |logs| ==> logs[i] in acc && KeyIn(DateOf, Inside)(logs[i]) {
      forall x | x in acc ensures KeyIn(DateOf, Inside)(x) {
        assert x in logs;
        var i :| 0 <= i < |logs| && logs[i] == x;
      }
    }
  }

  // ----- The discrepancy in the loop as written -----

  const OutOfRangeDay: ValidDate := Date(2025, 1, 1)

  /** Two lifelogs of the same day outside the covered range, the first
      with an aware start time and the second naive: the loop as written
      counts the second under its date and as undated, so it reports three
      of two lifelogs missing. */
  lemma MixedAwarenessCountedTwice()
    ensures var logs := [Lifelog(Some("a"), At(Moment(OutOfRangeDay, 0, Some(0)))),
                         Lifelog(Some("b"), At(Moment(OutOfRangeDay, 0, None)))];
      var c := AnalysisAsWritten(logs);
      c.undated == [Some("b")] && c.byDate == map[OutOfRangeDay := 2]
      && TotalMissing(c) == 3 && |logs| == 2
  {
    var ma, mb := Moment(OutOfRangeDay, 0, Some(0)), Moment(OutOfRangeDay, 0, None);
    var a, b := Lifelog(Some("a"), At(ma)), Lifelog(Some("b"), At(mb));
    var logs := [a, b];
    assert logs[..1] == [a] && [a][..0] == [];
    assert AnalysisAsWritten([]) == Start;
    var c1 := AnalysisAsWritten([a]);
    assert c1 == StepAsWritten(AnalysisAsWritten([]), a);
    assert c1 == Coverage(map[OutOfRangeDay := 1], [], Some(ma), Some(ma));
    assert Before(mb, ma).None?;
    var c := AnalysisAsWritten(logs);
    assert c == StepAsWritten(c1, b);
    assert c == Coverage(map[OutOfRangeDay := 2], [Some("b")], Some(ma), Some(ma));
    assert Outside(OutOfRangeDay);
    assert OutsideRange(c.byDate) == map[OutOfRangeDay := 2];
    SumValuesRemove(map[OutOfRangeDay := 2], OutOfRangeDay);
    var none: map<ValidDate, nat> := map[];
    assert map[OutOfRangeDay := 2] - {OutOfRangeDay} == none;
    assert SumValues(none) == 0;
    assert TotalMissing(c) == 1 + 2;
  }

  /** As written, `by_date` counts every lifelog whose start time parsed,
      including those whose comparison raised and that are also listed as
      undated. */
  lemma {:induction false} AsWrittenCountsEveryParsed(logs: seq<Lifelog>)
    ensures AnalysisAsWritten(logs).byDate == Counts(logs, DateOf)
  {
    if logs != [] {
      var xs, x := logs[..|logs| - 1], logs[|logs| - 1];
      assert logs == xs + [x];
      var c := AnalysisAsWritten(xs);
      assert AnalysisAsWritten(logs) == StepAsWritten(c, x);
      AsWrittenCountsEveryParsed(xs);
      AsWrittenTicks(c, x);
      if x.startedAt.At? {
        CountsTick(xs, x);
      } else {
        CountsSnoc(xs, x, DateOf);
      }
    }
  }

  /** The loop as written ticks the date of every parsed start time. */
  lemma AsWrittenTicks(c: Coverage, x: Lifelog)
    ensures StepAsWritten(c, x).byDate == if x.startedAt.At? then Tick(c.byDate, x.startedAt.value.date) else c.byDate
  {
  }

  /** As written, the loop differs from the corrected one only in
      `by_date`: `undated`, `earliest` and `latest` come out the same. */
  lemma {:induction false} AsWrittenDiffersOnlyInCounts(logs: seq<Lifelog>)
    ensures AnalysisAsWritten(logs) == Analysis(logs).(byDate := Counts(logs, DateOf))
  {
    AsWrittenCountsEveryParsed(logs);
    if logs != [] {
      var xs, x := logs[..|logs| - 1], logs[|logs| - 1];
      assert logs == xs + [x];
      AsWrittenDiffersOnlyInCounts(xs);
      AnalysisSummarises(xs);
      var c, cw := Analysis(xs), AnalysisAsWritten(xs);
      assert Ends(xs, c);
      StepAsWrittenAgrees(c, cw, x);
    }
  }

  /** One step of each loop from the same ends and undated list, the ends
      both unset or both set with one awareness, leaves the same ends and
      undated list. */
  lemma StepAsWrittenAgrees(c: Coverage, cw: Coverage, x: Lifelog)
    requires cw.undated == c.undated && cw.earliest == c.earliest && cw.latest == c.latest
    requires c.earliest.None? <==> c.latest.None?
    requires c.earliest.Some? ==> Aware(c.earliest.value) == Aware(c.latest.value)
    ensures StepAsWritten(cw, x).undated == Step(c, x).undated
    ensures StepAsWritten(cw, x).earliest == Step(c, x).earliest
    ensures StepAsWritten(cw, x).latest == Step(c, x).latest
  {
  }
}
