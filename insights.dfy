// `batch_export_insights.py`: the daily insights chats, what is read from
// each, which are kept for a date range, the order they are saved in, and
// the saved / skipped / error counters of the export loop. Files are a set
// of paths present before the run, plus a set of paths whose write fails.
module Insights {
  import opened Common
  import opened Calendar
  import opened Text
  import opened ChatData
  import ChatArchive

  /** The insights predicate: the summary is exactly "Daily insights". */
  predicate IsInsight(chat: Chat) {
    chat.summary == Str("Daily insights")
  }

  /** The chats the fetch loop keeps, in the order the pages list them. */
  function InsightChats(chats: seq<Chat>): (r: seq<Chat>)
    ensures forall c :: c in r <==> c in chats && IsInsight(c)
  {
    Filter(chats, IsInsight)
  }

  /** The chats selected here are exactly those the archive sync files
      under `insights`. */
  lemma InsightsAreTheInsightsSeries(chat: Chat)
    ensures IsInsight(chat) <==> ChatArchive.SeriesOf(ChatArchive.RoutingSummary(chat)) == ChatArchive.DailyInsights
  {
  }

  /** The dictionary `extract_insights_data` returns: `date` is `None`
      when `createdAt` is missing or falsy; `text` is `null` when the
      message's text is. */
  datatype Insight = Insight(date: Option<ValidDate>, dateStr: string, text: Field, chatId: string)

  /** `message.get("text", "")` of the first message whose user role is
      "assistant", or "" when there is none. */
  function AssistantText(ms: seq<Message>): Field {
    if ms == [] then Str("")
    else if ms[0].role == Str("assistant") then ms[0].text.GetOr("")
    else AssistantText(ms[1..])
  }

  /** The message loop with its `break`. */
  method FirstAssistantText(ms: seq<Message>) returns (text: Field)
    ensures text == AssistantText(ms)
  {
    text := Str("");
    var k := 0;
    while k < |ms|
      invariant 0 <= k <= |ms|
      invariant AssistantText(ms) == AssistantText(ms[k..])
    {
      assert ms[k..][1..] == ms[k + 1..];
      if ms[k].role == Str("assistant") {
        text := ms[k].text.GetOr("");
        return;
      }
      k := k + 1;
    }
  }

  /** The text is that of the first assistant message, and "" when no
      message has the assistant role. */
  lemma {:induction false} AssistantTextIsFirst(ms: seq<Message>)
    ensures (forall i :: 0 <= i < |ms| ==> ms[i].role != Str("assistant")) ==> AssistantText(ms) == Str("")
    ensures forall i :: (0 <= i < |ms| && ms[i].role == Str("assistant")
      && (forall j :: 0 <= j < i ==> ms[j].role != Str("assistant"))
      ==> AssistantText(ms) == ms[i].text.GetOr(""))
  {
    if ms != [] {
      AssistantTextIsFirst(ms[1..]);
      forall i | 0 <= i < |ms| && ms[i].role == Str("assistant")
        && (forall j :: 0 <= j < i ==> ms[j].role != Str("assistant"))
        ensures AssistantText(ms) == ms[i].text.GetOr("")
      {
        if i > 0 {
          assert ms[1..][i - 1] == ms[i];
          assert forall j :: 0 <= j < i - 1 ==> ms[1..][j] == ms[j + 1];
        }
      }
      if forall i :: 0 <= i < |ms| ==> ms[i].role != Str("assistant") {
        assert forall i :: 0 <= i < |ms| - 1 ==> ms[1..][i] == ms[i + 1];
      }
    }
  }

  /** `extract_insights_data`. A truthy `createdAt` that does not parse
      raises `ValueError`, uncaught by the script: `None`. */
  function ExtractInsight(chat: Chat): (r: Option<Insight>)
    ensures r.None? <==> chat.createdAt.Garbled?
  {
    var text := AssistantText(chat.messages);
    var id := IdOr(chat, "");
    match chat.createdAt
    case Garbled(_) => None
    case At(t) => Some(Insight(Some(t.date), IsoDate(t.date), text, id))
    case Absent => Some(Insight(None, "unknown", text, id))
    case Blank => Some(Insight(None, "unknown", text, id))
  }

  /** The date string is "unknown" exactly when `createdAt` is missing or
      falsy, and otherwise the ISO date the chat was created on. */
  lemma ExtractedDate(chat: Chat)
    requires ExtractInsight(chat).Some?
    ensures var ins := ExtractInsight(chat).value;
      (ins.dateStr == "unknown" <==> !chat.createdAt.Truthy())
      && (ins.date.None? <==> ins.dateStr == "unknown")
      && (chat.createdAt.At? ==> ins.date == Some(chat.createdAt.value.date) && ins.dateStr == IsoDate(chat.createdAt.value.date))
  {
  }

  // ----- filter_by_date_range -----

  predicate InRange(ins: Insight, start: ValidDate, end: ValidDate) {
    ins.date.Some? && Ordinal(start) <= Ordinal(ins.date.value) <= Ordinal(end)
  }

  /** `filter_by_date_range`: keeps exactly the dated insights within both
      bounds, in their order. */
  method FilterByDateRange(insights: seq<Insight>, start: ValidDate, end: ValidDate) returns (filtered: seq<Insight>)
    ensures filtered == Filter(insights, ins => InRange(ins, start, end))
    ensures forall ins :: ins in filtered <==> ins in insights && InRange(ins, start, end)
  {
    filtered := [];
    var k := 0;
    while k < |insights|
      invariant 0 <= k <= |insights|
      invariant filtered == Filter(insights[..k], ins => InRange(ins, start, end))
    {
      var next := k + 1;
      FilterSnoc(insights, k, next, ins => InRange(ins, start, end));
      var ins := insights[k];
      if ins.date.Some? && Ordinal(start) <= Ordinal(ins.date.value) <= Ordinal(end) {
        filtered := filtered + [ins];
      }
      k := next;
    }
    assert insights[..k] == insights;
  }

  // ----- The sort -----

  /** The sort key: the date, or `datetime.min.date()` (ordinal 1) for an
      undated insight. */
  function Key(ins: Insight): int {
    if ins.date.Some? then Ordinal(ins.date.value) else 1
  }

  lemma KeyOfDated(ins: Insight)
    requires ins.date.Some?
    ensures Key(ins) >= 1
    ensures Key(ins) == 1 <==> ins.date.value == Date(1, 1, 1)
  {
    var d := ins.date.value;
    OrdinalWithinYear(d);
    DaysBeforeYearMonotone(1, d.year);
    if Key(ins) == 1 {
      OrdinalInjective(d, Date(1, 1, 1));
    }
  }

  /** `insights_to_export.sort(key=...)`. */
  function SortByDate(s: seq<Insight>): seq<Insight> {
    SortBy(s, Key, IntLe)
  }

  /** After the sort, every undated insight comes before every insight
      dated after 0001-01-01. */
  lemma UndatedFirst(s: seq<Insight>, i: nat, j: nat)
    requires i < |SortByDate(s)| && j < |SortByDate(s)|
    requires SortByDate(s)[i].date.None?
    requires SortByDate(s)[j].date.Some? && SortByDate(s)[j].date.value != Date(1, 1, 1)
    ensures i < j
  {
    var r := SortByDate(s);
    IntLeTotal();
    SortBySpec(s, Key, IntLe);
    KeyOfDated(r[j]);
  }

  // ----- save_insight and the counters of main -----

  /** `output_dir / f"{date_str}-daily-insights.md"`. */
  function InsightPath(dir: string, ins: Insight): string {
    dir + "/" + ins.dateStr + "-daily-insights.md"
  }

  /** What `save_insight` gives back: a path or `None`, or an exception
      that stops the export (`Raised`): the header plus a null text is a
      `TypeError` raised outside the `try`. */
  datatype Saved = Returned(path: Option<string>) | Raised

  /** `save_insight`. `present` are the files that exist; writing to a path
      in `unwritable` fails. */
  function SaveInsight(ins: Insight, dir: string, present: set<string>, unwritable: set<string>): (r: Saved)
    ensures ins.dateStr == "unknown" ==> r == Returned(None)
    ensures r.Returned? && r.path.Some? ==> r.path.value == InsightPath(dir, ins)
  {
    if ins.dateStr == "unknown" then Returned(None)
    else
      var path := InsightPath(dir, ins);
      if path in present then Returned(Some(path))
      else if ins.text.Null? then Raised
      else if path in unwritable then Returned(None)
      else Returned(Some(path))
  }

  /** The counters of `main`, and the files present so far. */
  datatype Tally = Tally(saved: nat, skipped: nat, errors: nat, present: set<string>)

  /** One turn of the export loop as written: a returned path counts as
      skipped when the text "Skipping" occurs in it. */
  function StepAsWritten(t: Tally, ins: Insight, dir: string, unwritable: set<string>): Option<Tally> {
    match SaveInsight(ins, dir, t.present, unwritable)
    case Raised => None
    case Returned(None) => Some(t.(errors := t.errors + 1))
    case Returned(Some(p)) =>
      if Contains(p, "Skipping") then Some(t.(skipped := t.skipped + 1, present := t.present + {p}))
      else Some(t.(saved := t.saved + 1, present := t.present + {p}))
  }

  /** One turn of the export loop as intended: a path returned for a file
      that already existed is skipped, a newly written one saved. */
  function Step(t: Tally, ins: Insight, dir: string, unwritable: set<string>): Option<Tally> {
    match SaveInsight(ins, dir, t.present, unwritable)
    case Raised => None
    case Returned(None) => Some(t.(errors := t.errors + 1))
    case Returned(Some(p)) =>
      if p in t.present then Some(t.(skipped := t.skipped + 1))
      else Some(t.(saved := t.saved + 1, present := t.present + {p}))
  }

  lemma NoFirstCharNoContains(p: string, needle: string)
    requires needle != [] && needle[0] !in p
    ensures !Contains(p, needle)
  {
    forall i | 0 <= i <= |p| - |needle| ensures !OccursAt(p, needle, i) {
      assert p[i..i + |needle|][0] == p[i];
      assert p[i] in p;
    }
  }

  /** An insight whose file is already in the archive is counted as newly
      saved by the loop as written, and as skipped by the intended one. */
  lemma ExistingFileCountedAsSaved()
    ensures var ins := Insight(Some(Date(2025, 11, 19)), "2025-11-19", Str("text"), "abc");
      var t := Tally(0, 0, 0, {InsightPath("out", ins)});
      StepAsWritten(t, ins, "out", {}) == Some(t.(saved := 1))
      && Step(t, ins, "out", {}) == Some(t.(skipped := 1))
  {
    var ins := Insight(Some(Date(2025, 11, 19)), "2025-11-19", Str("text"), "abc");
    var p := InsightPath("out", ins);
    assert 'S' !in "out/" && 'S' !in "2025-11-19" && 'S' !in "-daily-insights.md";
    assert p == "out/" + "2025-11-19" + "-daily-insights.md";
    NoFirstCharNoContains(p, "Skipping");
    var t := Tally(0, 0, 0, {p});
    assert SaveInsight(ins, "out", t.present, {}) == Returned(Some(p));
    assert t.present + {p} == t.present;
  }

  /** The counters after the first `n` insights, `None` once the export
      has stopped on an exception. */
  function TallyUpTo(insights: seq<Insight>, n: nat, dir: string, present0: set<string>, unwritable: set<string>): Option<Tally>
    requires n <= |insights|
  {
    if n == 0 then Some(Tally(0, 0, 0, present0))
    else
      var k := n - 1;
      match TallyUpTo(insights, k, dir, present0, unwritable)
      case None => None
      case Some(t) => Step(t, insights[k], dir, unwritable)
  }

  lemma TallyUpToUnfold(insights: seq<Insight>, k: nat, n: nat, dir: string, present0: set<string>, unwritable: set<string>)
    requires n == k + 1 && n <= |insights|
    ensures TallyUpTo(insights, n, dir, present0, unwritable)
      == match TallyUpTo(insights, k, dir, present0, unwritable)
         case None => None
         case Some(t) => Step(t, insights[k], dir, unwritable)
  {
  }

  lemma {:induction false} TallyStopped(insights: seq<Insight>, k: nat, n: nat, dir: string, present0: set<string>, unwritable: set<string>)
    requires k <= n <= |insights| && TallyUpTo(insights, k, dir, present0, unwritable).None?
    ensures TallyUpTo(insights, n, dir, present0, unwritable).None?
    decreases n - k
  {
    if k < n {
      var next := k + 1;
      TallyUpToUnfold(insights, k, next, dir, present0, unwritable);
      TallyStopped(insights, next, n, dir, present0, unwritable);
    }
  }

  /** The export loop of `main` with the intended counters. */
  method ExportInsights(insights: seq<Insight>, dir: string, present0: set<string>, unwritable: set<string>)
    returns (r: Option<Tally>)
    ensures r == TallyUpTo(insights, |insights|, dir, present0, unwritable)
  {
    var saved, skipped, errors := 0, 0, 0;
    var present := present0;
    var k := 0;
    while k < |insights|
      invariant 0 <= k <= |insights|
      invariant TallyUpTo(insights, k, dir, present0, unwritable) == Some(Tally(saved, skipped, errors, present))
    {
      var next := k + 1;
      TallyUpToUnfold(insights, k, next, dir, present0, unwritable);
      var result := SaveInsight(insights[k], dir, present, unwritable);
      match result {
        case Raised =>
          TallyStopped(insights, next, |insights|, dir, present0, unwritable);
          return None;
        case Returned(None) =>
          errors := errors + 1;
        case Returned(Some(p)) =>
          if p in present {
            skipped := skipped + 1;
          } else {
            saved := saved + 1;
            present := present + {p};
          }
      }
      k := next;
    }
    r := Some(Tally(saved, skipped, errors, present));
  }

  /** Each insight handled moves exactly one counter, so the three add up to
      the insights handled; every saved file is new, and the files present
      grow by exactly the saved ones. */
  lemma {:induction false} TallyCounts(insights: seq<Insight>, n: nat, dir: string, present0: set<string>, unwritable: set<string>)
    requires n <= |insights| && TallyUpTo(insights, n, dir, present0, unwritable).Some?
    ensures var t := TallyUpTo(insights, n, dir, present0, unwritable).value;
      t.saved + t.skipped + t.errors == n
      && present0 <= t.present
      && |t.present| == |present0| + t.saved
  {
    if n > 0 {
      var k := n - 1;
      TallyUpToUnfold(insights, k, n, dir, present0, unwritable);
      TallyCounts(insights, k, dir, present0, unwritable);
    }
  }

  /** The counters of the loop as written after the first `n` insights,
      `None` once the export has stopped on an exception. */
  function TallyUpToAsWritten(insights: seq<Insight>, n: nat, dir: string, present0: set<string>, unwritable: set<string>): Option<Tally>
    requires n <= |insights|
  {
    if n == 0 then Some(Tally(0, 0, 0, present0))
    else
      var k := n - 1;
      match TallyUpToAsWritten(insights, k, dir, present0, unwritable)
      case None => None
      case Some(t) => StepAsWritten(t, insights[k], dir, unwritable)
  }

  /** As written, when no insight's file path contains "Skipping",
      `skipped_count` stays 0 whatever is already in the archive: every
      insight handled is counted as saved or as an error. */
  lemma {:induction false} TallyAsWrittenNeverSkips(insights: seq<Insight>, n: nat, dir: string, present0: set<string>, unwritable: set<string>)
    requires n <= |insights| && TallyUpToAsWritten(insights, n, dir, present0, unwritable).Some?
    requires forall k :: 0 <= k < n ==> !Contains(InsightPath(dir, insights[k]), "Skipping")
    ensures var t := TallyUpToAsWritten(insights, n, dir, present0, unwritable).value;
      t.skipped == 0 && t.saved + t.errors == n
  {
    if n > 0 {
      var k := n - 1;
      TallyAsWrittenNeverSkips(insights, k, dir, present0, unwritable);
    }
  }

  /** An undated insight is an error and writes nothing; a dated one whose
      file exists is skipped and writes nothing. */
  lemma StepOutcomes(t: Tally, ins: Insight, dir: string, unwritable: set<string>)
    ensures ins.dateStr == "unknown" ==> Step(t, ins, dir, unwritable) == Some(t.(errors := t.errors + 1))
    ensures ins.dateStr != "unknown" && InsightPath(dir, ins) in t.present
      ==> Step(t, ins, dir, unwritable) == Some(t.(skipped := t.skipped + 1))
    ensures Step(t, ins, dir, unwritable).None? <==>
      ins.dateStr != "unknown" && InsightPath(dir, ins) !in t.present && ins.text.Null?
  {
  }
}
