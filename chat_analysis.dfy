// `analyze_chats.py`: the metadata read from each chat, and the patterns
// found across chats: repeated summaries (series), dates with several
// chats, and how regularly a series recurs.
module ChatAnalysis {
  import opened Common
  import opened Calendar
  import opened ChatData

  /** The dictionary `analyze_chat_metadata` returns (the raw `createdAt`
      and `startedAt` strings it copies are not modelled). */
  datatype Metadata = Metadata(
    id: string, summary: Field, visibility: Field, createdDate: Option<ValidDate>,
    messageCount: nat, userCount: nat, assistantCount: nat,
    firstUser: string, firstUserFull: string, assistantLength: nat)

  const FirstMessageLimit := 200

  /** `role == r` for the role read with `user.get("role", "")`. */
  function HasRole(r: string): Message -> bool {
    (m: Message) => m.role == Str(r)
  }

  /** `msg.get("text", "")` of each message. */
  function Texts(ms: seq<Message>): (r: seq<Field>)
    ensures |r| == |ms|
    ensures forall i :: 0 <= i < |ms| ==> r[i] == ms[i].text.GetOr("")
  {
    seq(|ms|, i requires 0 <= i < |ms| => ms[i].text.GetOr(""))
  }

  /** The texts the loop appends to `user_messages` or `assistant_messages`. */
  function RoleTexts(ms: seq<Message>, r: string): seq<Field> {
    Texts(Filter(ms, HasRole(r)))
  }

  /** `analyze_chat_metadata`. Slicing a null first user text raises
      `TypeError`: `None`. */
  function ChatMetadata(chat: Chat): Option<Metadata> {
    var ms := chat.messages;
    var user := RoleTexts(ms, "user");
    var assistant := RoleTexts(ms, "assistant");
    var first := if user == [] then Str("") else user[0];
    var length := if assistant != [] && assistant[0].Str? then |assistant[0].s| else 0;
    match first
    case Str(full) =>
      Some(Metadata(IdOr(chat, ""), chat.summary.GetOr(""), chat.visibility.GetOr(""),
        CreatedDate(chat.createdAt), |ms|, |user|, |assistant|,
        Prefix(full, FirstMessageLimit), full, length))
    case _ => None
  }

  lemma TextsSnoc(ms: seq<Message>, m: Message)
    ensures Texts(ms + [m]) == Texts(ms) + [m.text.GetOr("")]
  {
  }

  /** The message loop of `analyze_chat_metadata` and the values computed
      from its two lists. */
  method AnalyzeChatMetadata(chat: Chat) returns (meta: Option<Metadata>)
    ensures meta == ChatMetadata(chat)
  {
    var ms := chat.messages;
    var user: seq<Field> := [];
    var assistant: seq<Field> := [];
    var k := 0;
    while k < |ms|
      invariant 0 <= k <= |ms|
      invariant user == RoleTexts(ms[..k], "user")
      invariant assistant == RoleTexts(ms[..k], "assistant")
    {
      var next := k + 1;
      FilterSnoc(ms, k, next, HasRole("user"));
      FilterSnoc(ms, k, next, HasRole("assistant"));
      TextsSnoc(Filter(ms[..k], HasRole("user")), ms[k]);
      TextsSnoc(Filter(ms[..k], HasRole("assistant")), ms[k]);
      var text := ms[k].text.GetOr("");
      if ms[k].role == Str("user") {
        user := user + [text];
      } else if ms[k].role == Str("assistant") {
        assistant := assistant + [text];
      }
      k := next;
    }
    assert ms[..k] == ms;
    var first := if user == [] then Str("") else user[0];
    var length := 0;
    if assistant != [] && assistant[0].Str? {
      length := |assistant[0].s|;
    }
    if first.Str? {
      meta := Some(Metadata(IdOr(chat, ""), chat.summary.GetOr(""), chat.visibility.GetOr(""),
        CreatedDate(chat.createdAt), |ms|, |user|, |assistant|,
        Prefix(first.s, FirstMessageLimit), first.s, length));
    } else {
      meta := None;
    }
  }

  /** A message is counted as a user message, as an assistant message, or
      neither, never both; so the two counts never exceed the messages. */
  lemma RoleCounts(chat: Chat)
    requires ChatMetadata(chat).Some?
    ensures var m := ChatMetadata(chat).value;
      m.userCount + m.assistantCount <= m.messageCount
      && m.messageCount == |chat.messages|
      && (m.userCount == 0 <==> forall i :: 0 <= i < |chat.messages| ==> chat.messages[i].role != Str("user"))
      && (m.assistantCount == 0 <==> forall i :: 0 <= i < |chat.messages| ==> chat.messages[i].role != Str("assistant"))
  {
    var ms := chat.messages;
    FilterDisjoint(ms, HasRole("user"), HasRole("assistant"));
    FilterNonEmpty(ms, HasRole("user"));
    FilterNonEmpty(ms, HasRole("assistant"));
  }

  /** The short first user message is a prefix of the full one, at most 200
      characters, and the whole message when that is short enough; both are
      "" when no message has the user role. */
  lemma FirstUserMessage(chat: Chat)
    requires ChatMetadata(chat).Some?
    ensures var m := ChatMetadata(chat).value;
      |m.firstUser| <= FirstMessageLimit
      && m.firstUser == m.firstUserFull[..|m.firstUser|]
      && (|m.firstUserFull| <= FirstMessageLimit ==> m.firstUser == m.firstUserFull)
      && ((forall i :: 0 <= i < |chat.messages| ==> chat.messages[i].role != Str("user")) ==> m.firstUser == "" && m.firstUserFull == "")
  {
    FilterNonEmpty(chat.messages, HasRole("user"));
  }

  /** The metadata is read exactly when the first user message, if any, has
      a text that is not null. */
  lemma MetadataFails(chat: Chat)
    ensures ChatMetadata(chat).None? <==>
      RoleTexts(chat.messages, "user") != [] && RoleTexts(chat.messages, "user")[0] == Null
  {
    var user := RoleTexts(chat.messages, "user");
    if user != [] {
      var f := Filter(chat.messages, HasRole("user"));
      assert user[0] == f[0].text.GetOr("");
    }
  }

  /** The response length is the length of the first assistant text, and 0
      when there is no assistant message or its text is null. */
  lemma AssistantLength(chat: Chat)
    requires ChatMetadata(chat).Some?
    ensures var m := ChatMetadata(chat).value;
      var a := RoleTexts(chat.messages, "assistant");
      (a == [] || a[0] == Null ==> m.assistantLength == 0)
      && (a != [] && a[0].Str? ==> m.assistantLength == |a[0].s|)
      && (m.assistantLength == 0 <==> a == [] || a[0] == Null || a[0] == Str(""))
  {
    var a := RoleTexts(chat.messages, "assistant");
    if a != [] {
      var f := Filter(chat.messages, HasRole("assistant"));
      assert a[0] == f[0].text.GetOr("");
    }
  }

  // ----- analyze_patterns -----

  /** A truthy summary, the key of `by_summary` and of the summary `Counter`. */
  function SummaryKey(m: Metadata): Option<string> {
    if m.summary.Truthy() then Some(m.summary.s) else None
  }

  /** The creation date, the key of `chats_by_date`. */
  function DateKey(m: Metadata): Option<ValidDate> {
    m.createdDate
  }

  /** `series`: each summary shared by two or more chats, with its count. */
  function Series(bySummary: map<string, seq<Metadata>>): map<string, nat> {
    map s | s in bySummary && |bySummary[s]| > 1 :: |bySummary[s]|
  }

  /** `multi_chat_dates`: the dates with two or more chats. */
  function MultiChatDates(byDate: map<ValidDate, seq<Metadata>>): set<ValidDate> {
    set d | d in byDate && |byDate[d]| > 1
  }

  /** The dictionary `analyze_patterns` returns, `summaries` being the
      `Counter` of truthy summaries. */
  datatype Patterns = Patterns(total: nat, summaries: map<string, nat>, series: map<string, nat>, multiChatDates: nat)

  function PatternsOf(metas: seq<Metadata>): Patterns {
    var bySummary := Group(metas, SummaryKey);
    Patterns(|metas|, map s | s in bySummary :: |bySummary[s]|, Series(bySummary),
      |MultiChatDates(Group(metas, DateKey))|)
  }

  /** The grouping loops of `analyze_patterns` and the comprehensions over
      their groups. */
  method AnalyzePatterns(metas: seq<Metadata>) returns (p: Patterns)
    ensures p == PatternsOf(metas)
  {
    var byDate := GroupBy(metas, DateKey);
    var bySummary := GroupBy(metas, SummaryKey);
    var summaries := map s | s in bySummary :: |bySummary[s]|;
    var series := map s | s in bySummary && |bySummary[s]| > 1 :: |bySummary[s]|;
    var multi := set d | d in byDate && |byDate[d]| > 1;
    p := Patterns(|metas|, summaries, series, |multi|);
  }

  /** A summary is a series exactly when two different chats carry it, and
      its count is the number of chats that do. */
  lemma SeriesIff(metas: seq<Metadata>, s: string)
    ensures s in PatternsOf(metas).series <==>
      exists i, j :: 0 <= i < j < |metas| && SummaryKey(metas[i]) == Some(s) && SummaryKey(metas[j]) == Some(s)
    ensures s in PatternsOf(metas).series ==>
      PatternsOf(metas).series[s] == |Filter(metas, KeyIs(SummaryKey, s))|
  {
    GroupMembers(metas, SummaryKey, s);
  }

  /** A date counts as a multi-chat date exactly when two different chats
      were created on it. */
  lemma MultiChatDateIff(metas: seq<Metadata>, d: ValidDate)
    ensures d in MultiChatDates(Group(metas, DateKey)) <==>
      exists i, j :: 0 <= i < j < |metas| && metas[i].createdDate == Some(d) && metas[j].createdDate == Some(d)
  {
    GroupMembers(metas, DateKey, d);
  }

  // ----- Cadence of a series -----

  datatype Cadence = Daily | Weekly | Occasional

  /** The ordinals of the chats that have a creation date, in order. */
  function DatedOrdinals(ms: seq<Metadata>): (r: seq<int>)
    ensures |r| <= |ms|
  {
    if ms == [] then []
    else (if ms[0].createdDate.Some? then [Ordinal(ms[0].createdDate.value)] else []) + DatedOrdinals(ms[1..])
  }

  function Identity(x: int): int {
    x
  }

  /** `date_diffs`: the gaps between consecutive dates. */
  function Diffs(s: seq<int>): (r: seq<int>)
    requires |s| >= 1
    ensures |r| == |s| - 1
  {
    seq(|s| - 1, i requires 0 <= i < |s| - 1 => s[i + 1] - s[i])
  }

  /** The average gap compared with 1.5 and 7.5 days, in integers: the
      average `total / n` is at most `1.5` exactly when `2 * total <= 3 * n`. */
  function Classify(total: int, n: int): Cadence
    requires n >= 1
  {
    if 2 * total <= 3 * n then Daily
    else if 2 * total <= 15 * n then Weekly
    else Occasional
  }

  /** The cadence printed for a series with two or more dated chats. */
  function SeriesCadence(chats: seq<Metadata>): Option<Cadence> {
    var dates := DatedOrdinals(chats);
    if |dates| > 1 then
      var sorted := SortBy(dates, Identity, IntLe);
      Some(Classify(Sum(Diffs(sorted)), |sorted| - 1))
    else None
  }

  lemma {:induction false} DiffsTelescope(s: seq<int>)
    requires |s| >= 1
    ensures Sum(Diffs(s)) == s[|s| - 1] - s[0]
  {
    if |s| > 1 {
      var t := s[1..];
      DiffsTelescope(t);
      assert Diffs(s) == [s[1] - s[0]] + Diffs(t);
      assert Diffs(s)[1..] == Diffs(t);
    }
  }

  lemma SortedEnds(s: seq<int>, x: int)
    requires |s| >= 1 && x in multiset(SortBy(s, Identity, IntLe))
    ensures var r := SortBy(s, Identity, IntLe);
      |r| == |s| && r[0] <= x <= r[|r| - 1]
  {
    var r := SortBy(s, Identity, IntLe);
    IntLeTotal();
    SortBySpec(s, Identity, IntLe);
    var i :| 0 <= i < |r| && r[i] == x;
    assert Identity(r[0]) <= Identity(r[i]) || i == 0;
    assert Identity(r[i]) <= Identity(r[|r| - 1]) || i == |r| - 1;
  }

  /** The average gap is the span from the earliest to the latest date over
      the number of gaps: a series is daily exactly when twice that span is
      at most three times the number of gaps, and weekly when it is not but
      is at most fifteen times it. */
  lemma CadenceBySpan(chats: seq<Metadata>)
    requires |DatedOrdinals(chats)| > 1
    ensures var dates := DatedOrdinals(chats);
      var sorted := SortBy(dates, Identity, IntLe);
      var span := sorted[|sorted| - 1] - sorted[0];
      var n := |dates| - 1;
      (forall x :: x in dates ==> sorted[0] <= x <= sorted[|sorted| - 1])
      && (sorted[0] in dates && sorted[|sorted| - 1] in dates)
      && (SeriesCadence(chats) == Some(Daily) <==> 2 * span <= 3 * n)
      && (SeriesCadence(chats) == Some(Weekly) <==> 3 * n < 2 * span <= 15 * n)
  {
    var dates := DatedOrdinals(chats);
    SortedBounds(dates);
    DiffsTelescope(SortBy(dates, Identity, IntLe));
  }

  /** The ascending sort of the dates starts at the earliest one and ends at
      the latest. */
  lemma SortedBounds(dates: seq<int>)
    requires |dates| > 1
    ensures var sorted := SortBy(dates, Identity, IntLe);
      |sorted| == |dates|
      && (forall x :: x in dates ==> sorted[0] <= x <= sorted[|sorted| - 1])
      && (sorted[0] in dates && sorted[|sorted| - 1] in dates)
  {
    var sorted := SortBy(dates, Identity, IntLe);
    IntLeTotal();
    SortBySpec(dates, Identity, IntLe);
    forall x | x in dates ensures sorted[0] <= x <= sorted[|sorted| - 1] {
      assert x in multiset(dates);
      SortedEnds(dates, x);
    }
    assert sorted[0] in multiset(sorted) && sorted[|sorted| - 1] in multiset(sorted);
  }

  /** A series on k consecutive days is daily; one every seven days is
      weekly. */
  lemma RegularSeries(chats: seq<Metadata>)
    requires |DatedOrdinals(chats)| > 1
    ensures var sorted := SortBy(DatedOrdinals(chats), Identity, IntLe);
      var n := |DatedOrdinals(chats)| - 1;
      (sorted[n] - sorted[0] == n ==> SeriesCadence(chats) == Some(Daily))
      && (sorted[n] - sorted[0] == 7 * n ==> SeriesCadence(chats) == Some(Weekly))
  {
    CadenceBySpan(chats);
  }
}
