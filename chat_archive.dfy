// Where the chat scripts put a chat, and which chats they pick:
// series routing and archive paths of `sync_all_chats.py`, the archived-ID
// scan and new-chat test of its sync, the path choice of
// `export_all_chats.py` and `export_remaining_chats.py`, `filter_chats`,
// and the excluded-series filter. Paths are relative to the archive root
// (`exports/` for the sync, the output directory for the exports).
module ChatArchive {
  import opened Common
  import opened Calendar
  import opened Text
  import opened ChatData
  import opened FileNames

  // ----- Series routing -----

  /** The entries of `SERIES_CONFIG`, and everything else. */
  datatype Series = DailyInsights | DailySummary | DoneBetter | Other

  /** `SERIES_CONFIG.get(summary)`: exact, case-sensitive matching. */
  function SeriesOf(summary: string): Series {
    if summary == "Daily insights" then DailyInsights
    else if summary == "Daily Summary" then DailySummary
    else if summary == "Done Better" then DoneBetter
    else Other
  }

  /** The directory of a series; `DEFAULT_DIR` for the rest. */
  function SeriesDir(s: Series): string {
    match s
    case DailyInsights => "insights"
    case DailySummary => "daily-summaries"
    case DoneBetter => "done-better"
    case Other => "chats"
  }

  /** The summary `get_output_path` routes by: a missing, null or empty
      summary is "untitled". */
  function RoutingSummary(chat: Chat): string {
    OrElse(chat.summary, "untitled")
  }

  /** A chat goes to a series directory exactly when its summary is that
      series' name, and to `chats` otherwise. */
  lemma Routing(chat: Chat)
    ensures var dir := SeriesDir(SeriesOf(RoutingSummary(chat)));
      (dir == "insights" <==> chat.summary == Str("Daily insights"))
      && (dir == "daily-summaries" <==> chat.summary == Str("Daily Summary"))
      && (dir == "done-better" <==> chat.summary == Str("Done Better"))
      && (dir == "chats" <==> !(chat.summary in {Str("Daily insights"), Str("Daily Summary"), Str("Done Better")}))
  {
  }

  // ----- The sync's archive paths -----

  /** `chat_id[:8]` with `chat_id = chat.get("id", "unknown")`. */
  function ShortId(chat: Chat): string {
    Prefix(IdOr(chat, "unknown"), 8)
  }

  /** The file name of a chat without its `.md` suffix. */
  function SyncStem(chat: Chat): string {
    var summary := RoutingSummary(chat);
    var safe := CleanName(summary);
    match CreatedDate(chat.createdAt)
    case Some(d) =>
      if SeriesOf(summary) == DailyInsights then IsoDate(d) + "-daily-insights"
      else IsoDate(d) + "-" + safe + "-" + ShortId(chat)
    case None => safe + "-" + ShortId(chat)
  }

  /** The directory of a chat: its series directory, and below it the
      `YYYY-MM` month directory when `createdAt` parses. */
  function SyncDir(chat: Chat): string {
    var dir := SeriesDir(SeriesOf(RoutingSummary(chat)));
    match CreatedDate(chat.createdAt)
    case Some(d) => dir + "/" + IsoMonth(d)
    case None => dir
  }

  /** `get_output_path`. */
  function SyncPath(chat: Chat): string {
    SyncDir(chat) + "/" + SyncStem(chat) + ".md"
  }

  /** The name part of every sync path is the sanitised summary of the
      remaining-chats export: a safe name, "untitled" for a chat without
      a summary. */
  lemma SyncNameSafe(chat: Chat)
    ensures CleanName(RoutingSummary(chat)) == SanitizeField(chat.summary)
    ensures SafeName(CleanName(RoutingSummary(chat)))
  {
    SanitizeFieldSafe(chat.summary);
    if !chat.summary.Truthy() {
      CleanUntitled();
    }
  }

  // ----- Archived IDs and new chats -----

  /** The last part of `s.split('-')`: what follows the last '-'. */
  function LastPart(s: string): (r: string)
    ensures |r| <= |s| && r == s[|s| - |r|..]
    ensures '-' !in r
    ensures |r| < |s| ==> s[|s| - |r| - 1] == '-'
  {
    if s == [] then []
    else if s[|s| - 1] == '-' then []
    else LastPart(s[..|s| - 1]) + [s[|s| - 1]]
  }

  /** The ID `get_existing_chat_ids` reads off a file stem: its last
      '-'-separated part, when that has exactly 8 characters. */
  function IdOfStem(stem: string): (r: Option<string>)
    ensures r.Some? ==> |r.value| == 8 && '-' !in r.value
  {
    var last := LastPart(stem);
    if |last| == 8 then Some(last) else None
  }

  /** The IDs read off a list of stems. */
  function IdsOf(stems: seq<string>): set<string> {
    if stems == [] then {}
    else (match IdOfStem(stems[0]) case Some(x) => {x} case None => {}) + IdsOf(stems[1..])
  }

  /** An ID is collected exactly when some stem yields it. */
  lemma {:induction false} IdsOfMembers(stems: seq<string>, x: string)
    ensures x in IdsOf(stems) <==> exists i :: 0 <= i < |stems| && IdOfStem(stems[i]) == Some(x)
  {
    if stems != [] {
      IdsOfMembers(stems[1..], x);
      if x in IdsOf(stems[1..]) {
        var i :| 0 <= i < |stems[1..]| && IdOfStem(stems[1..][i]) == Some(x);
        assert stems[i + 1] == stems[1..][i];
      }
      if exists i :: 0 <= i < |stems| && IdOfStem(stems[i]) == Some(x) {
        var i :| 0 <= i < |stems| && IdOfStem(stems[i]) == Some(x);
        if i > 0 {
          assert stems[1..][i - 1] == stems[i];
        }
      }
    }
  }

  /** The filename loop of `get_existing_chat_ids` (the scan of insights
      files' contents is not part of this model). */
  method ExistingChatIds(stems: seq<string>) returns (ids: set<string>)
    ensures ids == IdsOf(stems)
  {
    ids := {};
    var k := |stems|;
    while k > 0
      invariant 0 <= k <= |stems|
      invariant ids == IdsOf(stems[k..])
    {
      k := k - 1;
      assert stems[k..][1..] == stems[k + 1..];
      var id := IdOfStem(stems[k]);
      if id.Some? {
        ids := ids + {id.value};
      }
    }
  }

  lemma {:induction false} LastPartOfJoin(a: string, b: string)
    requires '-' !in b
    ensures LastPart(a + "-" + b) == b
    decreases |b|
  {
    var s := a + "-" + b;
    if b == [] {
      assert s[|s| - 1] == '-';
    } else {
      var b' := b[..|b| - 1];
      assert s[..|s| - 1] == a + "-" + b';
      assert '-' !in b' by {
        forall i | 0 <= i < |b'| ensures b'[i] != '-' {
          assert b'[i] == b[i];
        }
      }
      LastPartOfJoin(a, b');
      assert b == b' + [b[|b| - 1]];
    }
  }

  /** A sync file of a chat outside the daily insights series gives back the
      chat's short ID when that ID is 8 characters without a '-', so the
      next sync finds the chat archived. */
  lemma SyncStemRoundTrip(chat: Chat)
    requires SeriesOf(RoutingSummary(chat)) != DailyInsights || CreatedDate(chat.createdAt).None?
    requires |ShortId(chat)| == 8 && '-' !in ShortId(chat)
    ensures IdOfStem(SyncStem(chat)) == Some(ShortId(chat))
  {
    var safe := CleanName(RoutingSummary(chat));
    match CreatedDate(chat.createdAt)
    case Some(d) =>
      AppendAssoc(IsoDate(d), "-", safe);
      assert SyncStem(chat) == (IsoDate(d) + "-" + safe) + "-" + ShortId(chat);
      LastPartOfJoin(IsoDate(d) + "-" + safe, ShortId(chat));
    case None =>
      LastPartOfJoin(safe, ShortId(chat));
  }

  /** Every dated daily insights file yields the pseudo-ID "insights": its
      stem ends in `-daily-insights`. */
  lemma InsightsStemId(chat: Chat)
    requires SeriesOf(RoutingSummary(chat)) == DailyInsights && CreatedDate(chat.createdAt).Some?
    ensures IdOfStem(SyncStem(chat)) == Some("insights")
  {
    var d := CreatedDate(chat.createdAt).value;
    assert SyncStem(chat) == (IsoDate(d) + "-daily") + "-" + "insights";
    LastPartOfJoin(IsoDate(d) + "-daily", "insights");
  }

  /** The new-chat test of the sync: `chat.get("id", "")[:8]` not archived. */
  predicate IsNew(chat: Chat, existing: set<string>) {
    Prefix(IdOr(chat, ""), 8) !in existing
  }

  function NewChats(chats: seq<Chat>, existing: set<string>): (r: seq<Chat>)
    ensures forall c :: c in r <==> c in chats && IsNew(c, existing)
  {
    Filter(chats, c => IsNew(c, existing))
  }

  /** After a chat with an 8-character ID is synced outside the insights
      series, the scan of the archive makes it no longer new. */
  lemma SyncedChatNotNew(chat: Chat, stems: seq<string>)
    requires chat.id.Some? && |chat.id.value| >= 8 && '-' !in chat.id.value[..8]
    requires SeriesOf(RoutingSummary(chat)) != DailyInsights || CreatedDate(chat.createdAt).None?
    requires SyncStem(chat) in stems
    ensures !IsNew(chat, IdsOf(stems))
  {
    SyncStemRoundTrip(chat);
    var i :| 0 <= i < |stems| && stems[i] == SyncStem(chat);
    IdsOfMembers(stems, ShortId(chat));
  }

  // ----- Paths of the two export scripts -----

  /** The file name both exports give a chat: `{date}-{safe}-{id8}.md` in a
      `YYYY-MM` directory when organised by a parseable date, else
      `{safe}-{id8}.md` at the root. */
  function ExportName(safe: string, chat: Chat, organize: bool): string {
    match CreatedDate(chat.createdAt)
    case Some(d) =>
      if organize then IsoMonth(d) + "/" + IsoDate(d) + "-" + safe + "-" + ShortId(chat) + ".md"
      else safe + "-" + ShortId(chat) + ".md"
    case None => safe + "-" + ShortId(chat) + ".md"
  }

  /** `save_chat` of `export_remaining_chats.py`: always organised, and a
      missing, null or empty summary is "untitled". */
  function RemainingPath(chat: Chat): string {
    ExportName(SanitizeField(chat.summary), chat, true)
  }

  /** `save_chat` of `export_all_chats.py` as written: the summary is
      `chat.get("summary", "untitled")`, and a JSON null reaches
      `sanitize_filename`, whose `re.sub` raises a `TypeError` that escapes
      both the `try` and its fallback. `None` is that crash. */
  function ExportAllPathAsWritten(chat: Chat, organize: bool): (r: Option<string>)
    ensures r.None? <==> chat.summary.Null?
  {
    match chat.summary
    case Null => None
    case Missing => Some(ExportName(CleanName("untitled"), chat, organize))
    case Str(s) => Some(ExportName(CleanName(s), chat, organize))
  }

  /** A chat whose summary is null stops the whole export. */
  lemma ExportAllNullSummaryCrashes()
    ensures ExportAllPathAsWritten(Chat(Some("abcdefgh12"), Null, Absent, Missing, []), false).None?
  {
  }

  /** The intended `save_chat` of `export_all_chats.py`: a null summary is
      "untitled", as in the other two chat scripts. */
  function ExportAllPath(chat: Chat, organize: bool): string {
    ExportName(SanitizeField(chat.summary), chat, organize)
  }

  /** The intended path agrees with the script wherever the script does not
      crash, names every chat, and is the remaining-chats path when
      organised; its name part is always a safe name. */
  lemma ExportAllPathAgrees(chat: Chat, organize: bool)
    ensures !chat.summary.Null? ==> ExportAllPathAsWritten(chat, organize) == Some(ExportAllPath(chat, organize))
    ensures ExportAllPath(chat, true) == RemainingPath(chat)
    ensures SafeName(SanitizeField(chat.summary))
  {
    SanitizeFieldSafe(chat.summary);
    if chat.summary.Str? && chat.summary.s == "" {
      assert CleanName("") == "untitled";
    }
    if chat.summary.Missing? {
      CleanNameKeepsSafe("untitled");
    }
  }

  // ----- filter_chats -----

  /** The summary test: a truthy summary containing the filter, both lower-cased. */
  predicate SummaryMatches(chat: Chat, filter: string) {
    chat.summary.Truthy() && Contains(Lower(chat.summary.s), Lower(filter))
  }

  /** The date test: a parseable `createdAt` whose date is within the given
      bounds, both inclusive. */
  predicate DateInRange(chat: Chat, start: Option<ValidDate>, end: Option<ValidDate>) {
    match CreatedDate(chat.createdAt)
    case Some(d) =>
      (start.None? || Ordinal(start.value) <= Ordinal(d))
      && (end.None? || Ordinal(d) <= Ordinal(end.value))
    case None => false
  }

  /** `filter_chats(chats, summary_filter, start_date, end_date)`; an empty
      `filter` is one not given. */
  function FilteredChats(chats: seq<Chat>, filter: string, start: Option<ValidDate>, end: Option<ValidDate>): seq<Chat> {
    var bySummary := if filter != "" then Filter(chats, c => SummaryMatches(c, filter)) else chats;
    if start.Some? || end.Some? then Filter(bySummary, c => DateInRange(c, start, end)) else bySummary
  }

  /** `filter_chats`: the summary comprehension, then the date loop. */
  method FilterChats(chats: seq<Chat>, filter: string, start: Option<ValidDate>, end: Option<ValidDate>)
    returns (filtered: seq<Chat>)
    ensures filtered == FilteredChats(chats, filter, start, end)
  {
    filtered := chats;
    if filter != "" {
      filtered := Filter(filtered, c => SummaryMatches(c, filter));
    }
    if start.Some? || end.Some? {
      var dated: seq<Chat> := [];
      var k := 0;
      while k < |filtered|
        invariant 0 <= k <= |filtered|
        invariant dated == Filter(filtered[..k], c => DateInRange(c, start, end))
      {
        var next := k + 1;
        FilterSnoc(filtered, k, next, c => DateInRange(c, start, end));
        var chat := filtered[k];
        var created := CreatedDate(chat.createdAt);
        if created.Some? {
          var d := created.value;
          if (start.None? || Ordinal(start.value) <= Ordinal(d)) && (end.None? || Ordinal(d) <= Ordinal(end.value)) {
            dated := dated + [chat];
          }
        }
        k := next;
      }
      assert filtered[..k] == filtered;
      filtered := dated;
    }
  }

  /** A chat is kept exactly when it passes the summary test (if a filter is
      given) and the date test (if a bound is given); the result is a
      subsequence of the input in its order; with neither, the input comes
      back unchanged. */
  lemma FilteredChatsSpec(chats: seq<Chat>, filter: string, start: Option<ValidDate>, end: Option<ValidDate>)
    ensures var r := FilteredChats(chats, filter, start, end);
      |r| <= |chats|
      && (forall c :: c in r <==> (c in chats
            && (filter != "" ==> SummaryMatches(c, filter))
            && (start.Some? || end.Some? ==> DateInRange(c, start, end))))
      && (filter == "" && start.None? && end.None? ==> r == chats)
  {
  }

  /** Filtering two batches of chats is filtering each: the order is kept. */
  lemma FilteredChatsAppend(a: seq<Chat>, b: seq<Chat>, filter: string, start: Option<ValidDate>, end: Option<ValidDate>)
    ensures FilteredChats(a + b, filter, start, end)
      == FilteredChats(a, filter, start, end) + FilteredChats(b, filter, start, end)
  {
    var s := c => SummaryMatches(c, filter);
    var t := c => DateInRange(c, start, end);
    if filter != "" {
      FilterAppend(a, b, s);
    }
    var a1 := if filter != "" then Filter(a, s) else a;
    var b1 := if filter != "" then Filter(b, s) else b;
    if start.Some? || end.Some? {
      FilterAppend(a1, b1, t);
    }
  }

  // ----- The excluded series of export_remaining_chats.py -----

  /** `c.get("summary") in EXCLUDED_SERIES`: a null or missing summary is
      never excluded. */
  predicate Excluded(chat: Chat) {
    chat.summary in {Str("Daily insights"), Str("Daily Summary"), Str("Done Better")}
  }

  function RemainingChats(chats: seq<Chat>): (r: seq<Chat>)
    ensures forall c :: c in r <==> c in chats && !Excluded(c)
  {
    Filter(chats, c => !Excluded(c))
  }

  /** The excluded count the script prints, `len(all) - len(remaining)`, is
      the number of chats in the three series: every chat is in exactly one
      of the two groups. */
  lemma ExcludedPlusRemaining(chats: seq<Chat>)
    ensures |Filter(chats, Excluded)| + |RemainingChats(chats)| == |chats|
  {
    FilterPartition(chats, Excluded, c => !Excluded(c));
  }

  /** The excluded chats are exactly those the sync routes to a series
      directory. */
  lemma ExcludedIffSeries(chat: Chat)
    ensures Excluded(chat) <==> SeriesOf(RoutingSummary(chat)) != Other
  {
  }
}
