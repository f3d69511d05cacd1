// The lifelog timestamp tokens both audio planners scan for: the pattern
// `\d{1,2}/\d{1,2}/\d{2}\s+\d{1,2}:\d{2}\s+[AP]M` (as `re.findall` finds it)
// and the `"%m/%d/%y %I:%M %p"` parse of each match.
//
// The matcher below is deterministic and greedy. That is exact for this
// pattern: every `\d{1,2}` is followed by a character that is not a digit
// ('/' or ':') and every `\s+` by one that is not whitespace (a digit or
// 'A'/'P'), so backtracking into a shorter run can never produce a match.
// `MatchAtComplete` proves that the greedy matcher finds every match.
module StampToken {
  import opened Common
  import opened Calendar
  import opened Text

  /** One match of the pattern, split into its parts; the whitespace runs
      are kept so that the parts spell the matched text exactly. */
  datatype Token = Token(month: string, day: string, year: string, gap1: string,
                         hour: string, minute: string, gap2: string, meridiem: char)

  predicate AllDigits(s: string) {
    forall i :: 0 <= i < |s| ==> IsDigit(s[i])
  }

  predicate AllSpaces(s: string) {
    forall i :: 0 <= i < |s| ==> IsSpace(s[i])
  }

  /** The parts have the shapes the pattern demands. */
  predicate WellFormed(t: Token) {
    1 <= |t.month| <= 2 && AllDigits(t.month) &&
    1 <= |t.day| <= 2 && AllDigits(t.day) &&
    |t.year| == 2 && AllDigits(t.year) &&
    |t.gap1| >= 1 && AllSpaces(t.gap1) &&
    1 <= |t.hour| <= 2 && AllDigits(t.hour) &&
    |t.minute| == 2 && AllDigits(t.minute) &&
    |t.gap2| >= 1 && AllSpaces(t.gap2) &&
    (t.meridiem == 'A' || t.meridiem == 'P')
  }

  predicate AllWellFormed(ts: seq<Token>) {
    forall k :: 0 <= k < |ts| ==> WellFormed(ts[k])
  }

  /** The text a token was matched from. */
  function TokenText(t: Token): string {
    DateText(t) + TimeText(t)
  }

  /** `M/D/YY`. */
  function DateText(t: Token): string {
    (t.month + "/") + ((t.day + "/") + t.year)
  }

  /** The whitespace, `h:mm`, whitespace and `AM`/`PM` that follow the date. */
  function TimeText(t: Token): string {
    t.gap1 + (ClockText(t) + MeridiemText(t))
  }

  /** `h:mm`. */
  function ClockText(t: Token): string {
    t.hour + (":" + t.minute)
  }

  /** The whitespace before `AM`/`PM`, and `AM`/`PM`. */
  function MeridiemText(t: Token): string {
    t.gap2 + [t.meridiem, 'M']
  }

  /** End of a greedy `\d{1,2}` starting at `i`. */
  function OneOrTwoDigits(s: string, i: nat): (r: Option<nat>)
    ensures r.Some? ==> i < r.value <= |s| && r.value <= i + 2 && AllDigits(s[i..r.value])
    ensures r.Some? ==> r.value == |s| || r.value == i + 2 || !IsDigit(s[r.value])
  {
    if i < |s| && IsDigit(s[i]) then
      if i + 1 < |s| && IsDigit(s[i + 1]) then Some(i + 2) else Some(i + 1)
    else None
  }

  /** End of `\d{2}` starting at `i`. */
  function TwoDigits(s: string, i: nat): (r: Option<nat>)
    ensures r.Some? ==> r.value == i + 2 <= |s| && AllDigits(s[i..r.value])
  {
    if i + 1 < |s| && IsDigit(s[i]) && IsDigit(s[i + 1]) then Some(i + 2) else None
  }

  /** End of the (possibly empty) run of whitespace starting at `i`. */
  function SpaceRunEnd(s: string, i: nat): (e: nat)
    requires i <= |s|
    ensures i <= e <= |s| && AllSpaces(s[i..e]) && (e == |s| || !IsSpace(s[e]))
    decreases |s| - i
  {
    if i < |s| && IsSpace(s[i]) then SpaceRunEnd(s, i + 1) else i
  }

  /** End of a greedy `\s+` starting at `i`. */
  function Spaces(s: string, i: nat): (r: Option<nat>)
    ensures r.Some? ==> i < r.value <= |s| && AllSpaces(s[i..r.value])
  {
    if i < |s| && SpaceRunEnd(s, i) > i then Some(SpaceRunEnd(s, i)) else None
  }

  /** End of the literal character `c` at `i`. */
  function Char(s: string, i: nat, c: char): (r: Option<nat>)
    ensures r.Some? ==> r.value == i + 1 <= |s| && s[i] == c
  {
    if i < |s| && s[i] == c then Some(i + 1) else None
  }

  /** The match of the pattern starting exactly at `i`, with its end. */
  function MatchAt(s: string, i: nat): (r: Option<(Token, nat)>)
    ensures r.Some? ==>
      WellFormed(r.value.0) && i < r.value.1 <= |s| && s[i..r.value.1] == TokenText(r.value.0)
  {
    match MatchDate(s, i)
    case None => None
    case Some((month, day, year, e)) =>
      match MatchTime(s, e)
      case None => None
      case Some((gap1, hour, minute, gap2, meridiem, end)) =>
        var t := Token(month, day, year, gap1, hour, minute, gap2, meridiem);
        SliceJoin(s, i, e, end);
        Some((t, end))
  }

  /** `\d{1,2}/\d{1,2}/\d{2}` at `i`: month, day, two-digit year and end. */
  function MatchDate(s: string, i: nat): (r: Option<(string, string, string, nat)>)
    ensures r.Some? ==> var (month, day, year, e) := r.value;
      i < e <= |s| && 1 <= |month| <= 2 && AllDigits(month) && 1 <= |day| <= 2 && AllDigits(day)
      && |year| == 2 && AllDigits(year) && s[i..e] == (month + "/") + ((day + "/") + year)
  {
    match MatchField(s, i)
    case None => None
    case Some((month, a)) =>
      match MatchField(s, a)
      case None => None
      case Some((day, c)) =>
        var e := TwoDigits(s, c);
        if e.None? then None else
        SliceJoin(s, a, c, e.value);
        SliceJoin(s, i, a, e.value);
        Some((month, day, s[c..e.value], e.value))
  }

  /** `\d{1,2}/` at `i`: the digits and the end. */
  function MatchField(s: string, i: nat): (r: Option<(string, nat)>)
    ensures r.Some? ==> var (w, n) := r.value;
      i < n <= |s| && 1 <= |w| <= 2 && AllDigits(w) && s[i..n] == w + "/"
  {
    var a := OneOrTwoDigits(s, i);
    if a.None? || Char(s, a.value, '/').None? then None
    else
      SlashJoin(s, i, a.value);
      Some((s[i..a.value], a.value + 1))
  }

  lemma SlashJoin(s: string, i: nat, a: nat)
    requires i <= a < |s| && s[a] == '/'
    ensures s[i..a + 1] == s[i..a] + "/"
  {
    assert s[a..a + 1] == "/";
    assert s[i..a + 1] == s[i..a] + s[a..a + 1];
  }

  /** `\s+\d{1,2}:\d{2}\s+[AP]M` at `j`: both whitespace runs, hour, minute,
      the meridiem letter and the end. */
  function MatchTime(s: string, j: nat): (r: Option<(string, string, string, string, char, nat)>)
    ensures r.Some? ==> var (gap1, hour, minute, gap2, meridiem, e) := r.value;
      j < e <= |s| && |gap1| >= 1 && AllSpaces(gap1) && 1 <= |hour| <= 2 && AllDigits(hour)
      && |minute| == 2 && AllDigits(minute) && |gap2| >= 1 && AllSpaces(gap2)
      && (meridiem == 'A' || meridiem == 'P')
      && s[j..e] == gap1 + ((hour + (":" + minute)) + (gap2 + [meridiem, 'M']))
  {
    var f := Spaces(s, j);
    if f.None? then None else
    match MatchClock(s, f.value)
    case None => None
    case Some((hour, minute, k)) =>
      match MatchMeridiem(s, k)
      case None => None
      case Some((gap2, meridiem, e)) =>
        SliceJoin(s, f.value, k, e);
        SliceJoin(s, j, f.value, e);
        Some((s[j..f.value], hour, minute, gap2, meridiem, e))
  }

  /** `\d{1,2}:\d{2}` at `f`: hour, minute and end. */
  function MatchClock(s: string, f: nat): (r: Option<(string, string, nat)>)
    ensures r.Some? ==> var (hour, minute, k) := r.value;
      f < k <= |s| && 1 <= |hour| <= 2 && AllDigits(hour) && |minute| == 2 && AllDigits(minute)
      && s[f..k] == hour + (":" + minute)
  {
    var g := OneOrTwoDigits(s, f);
    if g.None? || Char(s, g.value, ':').None? then None else
    var k := TwoDigits(s, g.value + 1);
    if k.None? then None else
    ConsAt(s, g.value, k.value);
    SliceJoin(s, f, g.value, k.value);
    Some((s[f..g.value], s[g.value + 1..k.value], k.value))
  }

  /** `\s+[AP]M` at `k`: the whitespace run, the meridiem letter and end. */
  function MatchMeridiem(s: string, k: nat): (r: Option<(string, char, nat)>)
    ensures r.Some? ==> var (gap2, meridiem, e) := r.value;
      k < e <= |s| && |gap2| >= 1 && AllSpaces(gap2) && (meridiem == 'A' || meridiem == 'P')
      && s[k..e] == gap2 + [meridiem, 'M']
  {
    var l := Spaces(s, k);
    if l.None? then None else
    var x := l.value;
    if !(x + 1 < |s| && (s[x] == 'A' || s[x] == 'P') && s[x + 1] == 'M') then None
    else
      MeridiemJoin(s, k, x);
      Some((s[k..x], s[x], x + 2))
  }

  lemma MeridiemJoin(s: string, k: nat, x: nat)
    requires k <= x && x + 2 <= |s| && s[x + 1] == 'M'
    ensures s[k..x + 2] == s[k..x] + [s[x], 'M']
  {
    assert s[x..x + 2] == [s[x], 'M'];
    assert s[k..x + 2] == s[k..x] + s[x..x + 2];
  }

  lemma ConsAt(s: string, y: nat, z: nat)
    requires y < z <= |s|
    ensures s[y..z] == [s[y]] + s[y + 1..z]
  {
  }

  lemma SliceJoin(s: string, x: nat, y: nat, z: nat)
    requires x <= y <= z <= |s|
    ensures s[x..z] == s[x..y] + s[y..z]
  {
  }

  /** Python's `re.findall`: leftmost matches, scanning on after each one. */
  function FindTokens(s: string, i: nat): (r: seq<Token>)
    requires i <= |s|
    ensures AllWellFormed(r)
    decreases |s| - i
  {
    if i == |s| then []
    else
      match MatchAt(s, i)
      case Some((t, e)) => [t] + FindTokens(s, e)
      case None => FindTokens(s, i + 1)
  }

  /** `%y`: two-digit years 69..99 are 1969..1999, 00..68 are 2000..2068. */
  function CenturyYear(yy: int): int {
    if yy <= 68 then 2000 + yy else 1900 + yy
  }

  /** `%I` with `%p`: 12 AM is hour 0, 12 PM is hour 12. */
  function Hour24(hour12: int, meridiem: char): int {
    if meridiem == 'P' then (if hour12 == 12 then 12 else hour12 + 12)
    else (if hour12 == 12 then 0 else hour12)
  }

  /** `datetime.strptime(match, "%m/%d/%y %I:%M %p")`: `None` where it raises. */
  function Parse(t: Token): Option<int>
    requires WellFormed(t)
  {
    var month := DigitsValue(t.month);
    var day := DigitsValue(t.day);
    var year := CenturyYear(DigitsValue(t.year));
    var hour := DigitsValue(t.hour);
    var minute := DigitsValue(t.minute);
    if 1 <= month <= 12 && 1 <= day <= DaysInMonth(year, month) && 1 <= hour <= 12 && minute <= 59
    then Some(InstantOf(Date(year, month, day), Hour24(hour, t.meridiem), minute))
    else None
  }

  /** The instant of one token, or nothing when it does not parse. */
  function ParsedOne(t: Token): seq<int>
    requires WellFormed(t)
  {
    match Parse(t)
    case Some(v) => [v]
    case None => []
  }

  /** The instants of the tokens that parse, in token order. */
  function ParsedAll(ts: seq<Token>): seq<int>
    requires AllWellFormed(ts)
  {
    if ts == [] then [] else ParsedOne(ts[0]) + ParsedAll(ts[1..])
  }

  /** The loop over `re.findall` matches with `try: strptime ... except: pass`. */
  method ExtractInstants(text: string) returns (stamps: seq<int>)
    ensures stamps == ParsedAll(FindTokens(text, 0))
  {
    var tokens := FindTokens(text, 0);
    stamps := [];
    var k := 0;
    while k < |tokens|
      invariant 0 <= k <= |tokens| && AllWellFormed(tokens[..k])
      invariant stamps == ParsedAll(tokens[..k])
    {
      var p := Parse(tokens[k]);
      var next := k + 1;
      ParsedSnoc(tokens, k, next);
      if p.Some? {
        stamps := stamps + [p.value];
      }
      k := next;
    }
    assert tokens[..k] == tokens;
  }

  /** One more token of `ts` read: its instant, if any, is appended. */
  lemma ParsedSnoc(ts: seq<Token>, k: nat, next: nat)
    requires AllWellFormed(ts) && next == k + 1 <= |ts|
    ensures AllWellFormed(ts[..k]) && AllWellFormed(ts[..next])
    ensures ParsedAll(ts[..next]) == ParsedAll(ts[..k]) + ParsedOne(ts[k])
  {
    assert ts[..next] == ts[..k] + [ts[k]];
    assert AllWellFormed([ts[k]]);
    ParsedAllAppend(ts[..k], [ts[k]]);
    assert [ts[k]][1..] == [];
  }

  lemma {:induction false} ParsedAllAppend(a: seq<Token>, b: seq<Token>)
    requires AllWellFormed(a) && AllWellFormed(b)
    ensures ParsedAll(a + b) == ParsedAll(a) + ParsedAll(b)
  {
    if a == [] {
      assert a + b == b;
    } else {
      var rest := a[1..];
      assert (a + b)[0] == a[0];
      assert (a + b)[1..] == rest + b;
      assert AllWellFormed(rest) by {
        forall k | 0 <= k < |rest| ensures WellFormed(rest[k]) {
          assert rest[k] == a[k + 1];
        }
      }
      ParsedAllAppend(rest, b);
      assert ParsedAll(a + b) == ParsedOne(a[0]) + (ParsedAll(rest) + ParsedAll(b));
      AppendAssoc(ParsedOne(a[0]), ParsedAll(rest), ParsedAll(b));
    }
  }

  /** A token that does not parse is dropped and changes nothing else. */
  lemma UnparseableTokenDropped(a: seq<Token>, t: Token, b: seq<Token>)
    requires AllWellFormed(a) && AllWellFormed(b)
    requires WellFormed(t) && Parse(t).None?
    ensures ParsedAll(a + [t] + b) == ParsedAll(a) + ParsedAll(b)
  {
    var at := a + [t];
    ParsedNothing(t);
    AllWellFormedAppend(a, [t]);
    AllWellFormedAppend(at, b);
    ParsedAllAppend(at, b);
    ParsedAllAppend(a, [t]);
    var pa, pb := ParsedAll(a), ParsedAll(b);
    assert ParsedAll(at) == pa + [];
    assert pa + [] == pa;
  }

  /** Well-formed sequences concatenate to a well-formed sequence. */
  lemma AllWellFormedAppend(a: seq<Token>, b: seq<Token>)
    requires AllWellFormed(a) && AllWellFormed(b)
    ensures AllWellFormed(a + b)
  {
    forall k | 0 <= k < |a + b| ensures WellFormed((a + b)[k]) {
      if k < |a| {
        assert (a + b)[k] == a[k];
      } else {
        assert (a + b)[k] == b[k - |a|];
      }
    }
  }

  /** An unparseable token alone contributes no instant. */
  lemma ParsedNothing(t: Token)
    requires WellFormed(t) && Parse(t).None?
    ensures AllWellFormed([t]) && ParsedAll([t]) == []
  {
    assert [t][1..] == [];
  }

  // ----- Writing a timestamp the way lifelog markdown shows it -----

  /** A token for the wall-clock time `hour:minute` on `d`, written as
      `M/D/YY h:MM AM|PM` with single spaces. */
  function Render(d: ValidDate, hour: int, minute: int): (t: Token)
    requires 1969 <= d.year <= 2068 && 0 <= hour < 24 && 0 <= minute < 60
    ensures WellFormed(t)
  {
    var h12 := if hour % 12 == 0 then 12 else hour % 12;
    TwoDigitValue(d.year % 100);
    TwoDigitValue(minute);
    Token(Decimal(d.month), Decimal(d.day), Padded(d.year % 100, 2), " ",
          Decimal(h12), Padded(minute, 2), " ", if hour < 12 then 'A' else 'P')
  }

  /** `n` in decimal without padding, for 1..99. */
  function Decimal(n: int): (s: string)
    requires 1 <= n <= 99
    ensures 1 <= |s| <= 2 && AllDigits(s) && DigitsValue(s) == n
  {
    if n < 10 then [DigitChar(n)]
    else
      var s := [DigitChar(n / 10), DigitChar(n % 10)];
      assert s[..1] == [DigitChar(n / 10)];
      assert DigitsValue(s[..1]) == DigitsValue([]) * 10 + DigitValue(s[0]);
      s
  }

  lemma Hour24Render(hour: int)
    requires 0 <= hour < 24
    ensures var h12 := if hour % 12 == 0 then 12 else hour % 12;
      1 <= h12 <= 12 && Hour24(h12, if hour < 12 then 'A' else 'P') == hour
  {
  }

  lemma TwoDigitValue(n: int)
    requires 0 <= n < 100
    ensures |Padded(n, 2)| == 2 && DigitsValue(Padded(n, 2)) == n
  {
    var s := Padded(n, 2);
    assert Padded(n / 10, 1) == [DigitChar(n / 10)];
    assert s == [DigitChar(n / 10)] + [DigitChar(n % 10)];
    assert s[..1] == [DigitChar(n / 10)];
    assert DigitsValue(s[..1]) == DigitsValue([]) * 10 + DigitValue(s[0]);
  }

  /** Parsing a rendered token gives back the instant it was rendered from. */
  lemma ParseRender(d: ValidDate, hour: int, minute: int)
    requires 1969 <= d.year <= 2068 && 0 <= hour < 24 && 0 <= minute < 60
    ensures Parse(Render(d, hour, minute)) == Some(InstantOf(d, hour, minute))
  {
    var t := Render(d, hour, minute);
    TwoDigitValue(d.year % 100);
    TwoDigitValue(minute);
    assert DigitsValue(t.month) == d.month;
    assert DigitsValue(t.day) == d.day;
    assert DigitsValue(t.year) == d.year % 100;
    assert DigitsValue(t.minute) == minute;
    assert CenturyYear(d.year % 100) == d.year;
    Hour24Render(hour);
    assert Date(d.year, d.month, d.day) == d;
  }

  // ----- The greedy matcher finds every match -----

  lemma DigitRunComplete(s: string, i: nat, w: string)
    requires 1 <= |w| <= 2 && AllDigits(w) && i + |w| <= |s| && s[i..i + |w|] == w
    requires i + |w| < |s| && !IsDigit(s[i + |w|])
    ensures OneOrTwoDigits(s, i) == Some(i + |w|)
  {
    assert s[i] == w[0];
    if |w| == 2 {
      assert s[i + 1] == w[1];
    }
  }

  lemma SpaceRunComplete(s: string, i: nat, w: string)
    requires |w| >= 1 && AllSpaces(w) && i + |w| < |s| && s[i..i + |w|] == w
    requires !IsSpace(s[i + |w|])
    ensures Spaces(s, i) == Some(i + |w|)
  {
    SpaceRunFrom(s, i, i + |w|);
    assert s[i] == w[0];
  }

  lemma {:induction false} SpaceRunFrom(s: string, i: nat, j: nat)
    requires i <= j < |s| && AllSpaces(s[i..j]) && !IsSpace(s[j])
    ensures SpaceRunEnd(s, i) == j
    decreases j - i
  {
    if i < j {
      assert s[i] == s[i..j][0];
      assert s[i + 1..j] == s[i..j][1..];
      SpaceRunFrom(s, i + 1, j);
    }
  }

  /** Whenever the text at `i` is a match of the pattern, `MatchAt` returns
      exactly that match: greedy matching loses nothing. */
  lemma MatchAtComplete(s: string, i: nat, t: Token)
    requires WellFormed(t) && i + |TokenText(t)| <= |s| && s[i..i + |TokenText(t)|] == TokenText(t)
    ensures MatchAt(s, i) == Some((t, i + |TokenText(t)|))
  {
    var e := Peel(s, i, DateText(t), TimeText(t));
    var end := e + |TimeText(t)|;
    assert s[e] == TimeText(t)[0] == t.gap1[0];
    MatchDateComplete(s, i, t, e);
    MatchTimeComplete(s, e, t, end);
    MatchAtParts(s, i, t, e, end);
    TokenEnd(t, i, e, end);
  }

  lemma TokenEnd(t: Token, i: nat, e: nat, end: nat)
    requires e == i + |DateText(t)| && end == e + |TimeText(t)|
    ensures end == i + |TokenText(t)|
  {
  }

  /** `MatchAt` assembles the token from the date and time matches. */
  lemma MatchAtParts(s: string, i: nat, t: Token, e: nat, end: nat)
    requires MatchDate(s, i) == Some((t.month, t.day, t.year, e))
    requires MatchTime(s, e) == Some((t.gap1, t.hour, t.minute, t.gap2, t.meridiem, end))
    ensures MatchAt(s, i) == Some((t, end))
  {
  }

  lemma MatchDateComplete(s: string, i: nat, t: Token, e: nat)
    requires WellFormed(t) && e + 1 < |s| && e == i + |DateText(t)| && s[i..e] == DateText(t)
    requires IsSpace(s[e])
    ensures MatchDate(s, i) == Some((t.month, t.day, t.year, e))
  {
    var a := Peel(s, i, t.month + "/", (t.day + "/") + t.year);
    var c := Peel(s, a, t.day + "/", t.year);
    MatchFieldComplete(s, i, t.month);
    MatchFieldComplete(s, a, t.day);
    assert s[c] == t.year[0] && s[c + 1] == t.year[1];
    assert c + 2 == e;
    MatchDateParts(s, i, t.month, a, t.day, c, e);
  }

  /** `MatchDate` assembles month, day and year from the two fields. */
  lemma MatchDateParts(s: string, i: nat, month: string, a: nat, day: string, c: nat, e: nat)
    requires MatchField(s, i) == Some((month, a)) && MatchField(s, a) == Some((day, c))
    requires TwoDigits(s, c) == Some(e)
    ensures MatchDate(s, i) == Some((month, day, s[c..e], e))
  {
  }

  lemma MatchFieldComplete(s: string, i: nat, w: string)
    requires 1 <= |w| <= 2 && AllDigits(w) && i + |w| + 1 <= |s| && s[i..i + |w| + 1] == w + "/"
    ensures MatchField(s, i) == Some((w, i + |w| + 1))
  {
    var a := Peel(s, i, w, "/");
    assert s[a] == s[a..a + 1][0];
    DigitRunComplete(s, i, w);
  }

  lemma MatchTimeComplete(s: string, j: nat, t: Token, end: nat)
    requires WellFormed(t) && end == j + |TimeText(t)| <= |s| && s[j..end] == TimeText(t)
    ensures MatchTime(s, j) == Some((t.gap1, t.hour, t.minute, t.gap2, t.meridiem, end))
  {
    var f := Peel(s, j, t.gap1, ClockText(t) + MeridiemText(t));
    var k := Peel(s, f, ClockText(t), MeridiemText(t));
    assert s[f] == ClockText(t)[0] == t.hour[0];
    SpaceRunComplete(s, j, t.gap1);
    MatchClockComplete(s, f, t);
    assert k + |MeridiemText(t)| == end;
    MatchMeridiemComplete(s, k, t, end);
    MatchTimeParts(s, j, f, t.hour, t.minute, k, t.gap2, t.meridiem, end);
  }

  /** `MatchTime` assembles its parts from the clock and meridiem matches. */
  lemma MatchTimeParts(s: string, j: nat, f: nat, hour: string, minute: string, k: nat,
                       gap2: string, meridiem: char, e: nat)
    requires Spaces(s, j) == Some(f)
    requires MatchClock(s, f) == Some((hour, minute, k))
    requires MatchMeridiem(s, k) == Some((gap2, meridiem, e))
    ensures MatchTime(s, j) == Some((s[j..f], hour, minute, gap2, meridiem, e))
  {
  }

  lemma MatchClockComplete(s: string, f: nat, t: Token)
    requires WellFormed(t) && f + |ClockText(t)| <= |s| && s[f..f + |ClockText(t)|] == ClockText(t)
    ensures MatchClock(s, f) == Some((t.hour, t.minute, f + |ClockText(t)|))
  {
    var g := Peel(s, f, t.hour, ":" + t.minute);
    var g1 := Peel(s, g, ":", t.minute);
    assert s[g] == s[g..g1][0];
    DigitRunComplete(s, f, t.hour);
    assert s[g1] == t.minute[0] && s[g1 + 1] == t.minute[1];
  }

  lemma MatchMeridiemComplete(s: string, k: nat, t: Token, end: nat)
    requires WellFormed(t) && end == k + |MeridiemText(t)| <= |s| && s[k..end] == MeridiemText(t)
    ensures MatchMeridiem(s, k) == Some((t.gap2, t.meridiem, end))
  {
    var l := Peel(s, k, t.gap2, [t.meridiem, 'M']);
    assert s[l] == s[l..l + 2][0] && s[l + 1] == s[l..l + 2][1];
    SpaceRunComplete(s, k, t.gap2);
  }

  /** Splits the text at `i`, known to spell `part + rest`, after `part`. */
  lemma Peel(s: string, i: nat, part: string, rest: string) returns (j: nat)
    requires i + |part| + |rest| <= |s| && s[i..i + |part| + |rest|] == part + rest
    ensures j == i + |part| && s[i..j] == part && s[j..j + |rest|] == rest
  {
    j := i + |part|;
    assert s[i..j] == (part + rest)[..|part|];
    assert s[j..j + |rest|] == (part + rest)[|part|..];
  }

  /** A rendered timestamp on its own line is found and read back. */
  lemma RenderedTokenFound(d: ValidDate, hour: int, minute: int)
    requires 1969 <= d.year <= 2068 && 0 <= hour < 24 && 0 <= minute < 60
    ensures MatchAt(TokenText(Render(d, hour, minute)), 0)
      == Some((Render(d, hour, minute), |TokenText(Render(d, hour, minute))|))
  {
    var w := TokenText(Render(d, hour, minute));
    assert w[0..|w|] == w;
    MatchAtComplete(w, 0, Render(d, hour, minute));
  }
}
