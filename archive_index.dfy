// The archive index generator: dates read from file names, the catalog of
// exported files, and the counts, date range and groupings that the master,
// monthly and type index pages are written from.
module ArchiveIndex {
  import opened Common
  import opened Calendar
  import opened Text

  // ----- Dates in file names -----

  /** `\d{4}-\d{2}-\d{2}` matches the ten characters at position `i`. */
  predicate DateAt(s: string, i: int) {
    0 <= i && i + 10 <= |s|
    && IsDigit(s[i]) && IsDigit(s[i + 1]) && IsDigit(s[i + 2]) && IsDigit(s[i + 3])
    && s[i + 4] == '-' && IsDigit(s[i + 5]) && IsDigit(s[i + 6])
    && s[i + 7] == '-' && IsDigit(s[i + 8]) && IsDigit(s[i + 9])
  }

  /** The scan `re.search` makes: the first match at or after `from`. */
  function SearchDate(s: string, from: nat): (r: Option<nat>)
    ensures r.Some? ==> from <= r.value && DateAt(s, r.value)
    ensures r.Some? ==> forall j :: from <= j < r.value ==> !DateAt(s, j)
    ensures r.None? ==> forall j :: from <= j ==> !DateAt(s, j)
    decreases |s| - from
  {
    if from + 10 > |s| then None
    else if DateAt(s, from) then Some(from)
    else SearchDate(s, from + 1)
  }

  /** `extract_date_from_filename`: the leftmost date-shaped part of the
      name, or nothing when no ten characters have that shape. */
  function ExtractDate(fileName: string): (r: Option<string>)
    ensures r.Some? ==> |r.value| == 10
    ensures r.Some? ==> exists i :: (DateAt(fileName, i) && r.value == fileName[i..i + 10]
      && forall j :: 0 <= j < i ==> !DateAt(fileName, j))
    ensures r.None? <==> forall j :: !DateAt(fileName, j)
  {
    match SearchDate(fileName, 0)
    case Some(i) => Some(fileName[i..i + 10])
    case None => None
  }

  /** A name that starts with a date yields that date, whatever follows. */
  lemma ExtractLeadingDate(date: string, rest: string)
    requires |date| == 10 && DateAt(date, 0)
    ensures ExtractDate(date + rest) == Some(date)
  {
    var s := date + rest;
    assert s[..10] == date;
    assert DateAt(s, 0);
  }

  // ----- Reading a key back with `strptime` -----

  /** `%m` reading all of `t`: the first of `1[0-2]`, `0[1-9]` and `[1-9]`
      that matches is taken, and anything left after it raises. */
  function MonthField(t: string): (r: Option<int>)
    ensures r.Some? ==> 1 <= r.value <= 12
  {
    if |t| == 2 && t[0] == '1' && '0' <= t[1] <= '2' then Some(10 + DigitValue(t[1]))
    else if |t| == 2 && t[0] == '0' && '1' <= t[1] <= '9' then Some(DigitValue(t[1]))
    else if |t| == 1 && '1' <= t[0] <= '9' then Some(DigitValue(t[0]))
    else None
  }

  /** `%d` reading all of `t`: the first of `3[01]`, `[12]\d`, `0[1-9]`,
      `[1-9]` and ` [1-9]` that matches, with nothing left after it. */
  function DayField(t: string): (r: Option<int>)
    ensures r.Some? ==> 1 <= r.value <= 31
  {
    if |t| == 2 && t[0] == '3' && '0' <= t[1] <= '1' then Some(30 + DigitValue(t[1]))
    else if |t| == 2 && '1' <= t[0] <= '2' && IsDigit(t[1]) then Some(10 * DigitValue(t[0]) + DigitValue(t[1]))
    else if |t| == 2 && t[0] == '0' && '1' <= t[1] <= '9' then Some(DigitValue(t[1]))
    else if |t| == 1 && '1' <= t[0] <= '9' then Some(DigitValue(t[0]))
    else if |t| == 2 && t[0] == ' ' && '1' <= t[1] <= '9' then Some(DigitValue(t[1]))
    else None
  }

  /** `%Y`: four digits at the front. */
  predicate FourDigits(s: string) {
    |s| >= 4 && IsDigit(s[0]) && IsDigit(s[1]) && IsDigit(s[2]) && IsDigit(s[3])
  }

  function YearOf(s: string): nat
    requires FourDigits(s)
  {
    DigitsValue(s[..4])
  }

  /** The value of the two digits at `i`. */
  function Two(s: string, i: nat): int
    requires i + 2 <= |s| && IsDigit(s[i]) && IsDigit(s[i + 1])
  {
    10 * DigitValue(s[i]) + DigitValue(s[i + 1])
  }

  /** `datetime.strptime(s, "%Y-%m")`: the year and month, or `None` where
      it raises `ValueError` (a pattern mismatch, data left over, or the
      year 0). */
  function ParseMonth(s: string): (r: Option<(int, int)>)
    ensures r.Some? ==> r.value.0 >= 1 && 1 <= r.value.1 <= 12
  {
    if |s| >= 5 && FourDigits(s) && s[4] == '-' then
      match MonthField(s[5..])
      case Some(m) => if YearOf(s) >= 1 then Some((YearOf(s), m)) else None
      case None => None
    else None
  }

  /** `datetime.strptime(d, "%Y-%m-%d")` on a key of the `DDDD-DD-DD` shape
      that file names give: the date, or `None` where it raises
      `ValueError`. */
  function ParseDay(d: string): (r: Option<ValidDate>)
    ensures r.Some? ==> |d| == 10 && DateAt(d, 0)
  {
    if |d| == 10 && DateAt(d, 0) then
      match (MonthField(d[5..7]), DayField(d[8..]))
      case (Some(m), Some(day)) =>
        var y := YearOf(d);
        if y >= 1 && day <= DaysInMonth(y, m) then Some(Date(y, m, day)) else None
      case _ => None
    else None
  }

  /** The date a `DDDD-DD-DD` key spells, valid or not. */
  function KeyDate(d: string): Date
    requires |d| == 10 && DateAt(d, 0)
  {
    Date(YearOf(d), Two(d, 5), Two(d, 8))
  }

  /** A date-shaped key whose month `strptime(..., "%Y-%m")` rejects. */
  predicate BadMonth(d: string) {
    |d| == 10 && DateAt(d, 0) && !(YearOf(d) >= 1 && 1 <= Two(d, 5) <= 12)
  }

  /** A date-shaped key that is not a calendar date. */
  predicate BadDay(d: string) {
    |d| == 10 && DateAt(d, 0) && !Valid(KeyDate(d))
  }

  lemma MonthFieldTwo(t: string)
    requires |t| == 2 && IsDigit(t[0]) && IsDigit(t[1])
    ensures MonthField(t) == if 1 <= Two(t, 0) <= 12 then Some(Two(t, 0)) else None
  {
  }

  lemma DayFieldTwo(t: string)
    requires |t| == 2 && IsDigit(t[0]) && IsDigit(t[1])
    ensures DayField(t) == if 1 <= Two(t, 0) <= 31 then Some(Two(t, 0)) else None
  {
  }

  /** On a date-shaped key, `strptime` reads the month back exactly when the
      year is not 0 and the month is 01..12, and reads the day back exactly
      when the key is a calendar date; a day that reads back has a month
      that does. */
  lemma KeyParses(d: string)
    requires |d| == 10 && DateAt(d, 0)
    ensures ParseMonth(d[..7]).Some? <==> YearOf(d) >= 1 && 1 <= Two(d, 5) <= 12
    ensures ParseMonth(d[..7]).Some? ==> ParseMonth(d[..7]).value == (YearOf(d), Two(d, 5))
    ensures ParseDay(d).Some? <==> Valid(KeyDate(d))
    ensures ParseDay(d).Some? ==> ParseDay(d).value == KeyDate(d) && ParseMonth(d[..7]).Some?
  {
    var m := d[..7];
    assert m[..4] == d[..4];
    assert m[5..] == d[5..7];
    MonthFieldTwo(d[5..7]);
    DayFieldTwo(d[8..]);
  }

  /** A date read from a file name has the `DDDD-DD-DD` shape. */
  lemma DateKeyShape(x: Item)
    requires x.date == ExtractDate(x.name) && Dated(x)
    ensures |DateKey(x)| == 10 && DateAt(DateKey(x), 0)
  {
    var d := DateKey(x);
    var i :| DateAt(x.name, i) && d == x.name[i..i + 10];
    assert forall k :: 0 <= k < 10 ==> d[k] == x.name[i + k];
  }

  // ----- The catalog -----

  /** The nine categories, in the order the catalog lists them. */
  datatype Category = Insights | DailySummaries | DoneBetter | Chats | Lifelogs | Contents | Summaries | Analytics | Audio

  /** Directories read flat; the others are read recursively through
      their month folders, skipping hidden files. */
  predicate Flat(c: Category) {
    c == Lifelogs || c == Contents || c == Summaries
  }

  /** One file of the archive: its name and the date read from it. */
  datatype Item = Item(name: string, date: Option<string>)

  /** The category lists of the catalog, in the order of `Category`. */
  type Catalog = seq<seq<Item>>

  function Entry(fileName: string): Item {
    Item(fileName, ExtractDate(fileName))
  }

  function Listed(c: Category): string -> bool {
    name => Flat(c) || !StartsWith(name, ".")
  }

  /** The items of one category from the names of the files found in its
      directory. */
  function ScanCategory(c: Category, fileNames: seq<string>): (items: seq<Item>)
    ensures |items| <= |fileNames|
    ensures forall i :: 0 <= i < |items| ==>
      items[i].name in fileNames && items[i].date == ExtractDate(items[i].name)
    ensures !Flat(c) ==> forall i :: 0 <= i < |items| ==> !StartsWith(items[i].name, ".")
  {
    var kept := Filter(fileNames, Listed(c));
    seq(|kept|, i requires 0 <= i < |kept| => Entry(kept[i]))
  }

  /** Every item's date was read from its name. */
  predicate FromNames(xs: seq<Item>) {
    forall i :: 0 <= i < |xs| ==> xs[i].date == ExtractDate(xs[i].name)
  }

  /** The sort key `x["date"] if x["date"] else ""`. */
  function DateKey(x: Item): string {
    match x.date
    case Some(d) => d
    case None => ""
  }

  /** The truth test `if item["date"]`. */
  predicate Dated(x: Item) {
    DateKey(x) != ""
  }

  /** `catalog[category].sort(key=...)`. */
  function SortCategory(items: seq<Item>): seq<Item> {
    SortBy(items, DateKey, LexLe)
  }

  lemma LexLeTotalPreorder()
    ensures TotalPreorder(LexLe)
  {
    forall a, b ensures LexLe(a, b) || LexLe(b, a) {
      LexLeTotal(a, b);
    }
    forall a, b, c | LexLe(a, b) && LexLe(b, c) ensures LexLe(a, c) {
      LexLeTransitive(a, b, c);
    }
  }

  /** Sorting keeps every item, orders the dates, and puts the undated
      items first. */
  lemma CatalogSorted(items: seq<Item>)
    ensures multiset(SortCategory(items)) == multiset(items)
    ensures forall i, j :: 0 <= i < j < |items| ==>
      LexLe(DateKey(SortCategory(items)[i]), DateKey(SortCategory(items)[j]))
    ensures forall i, j :: 0 <= i < j < |items| && !Dated(SortCategory(items)[j]) ==>
      !Dated(SortCategory(items)[i])
  {
    LexLeTotalPreorder();
    SortBySpec(items, DateKey, LexLe);
  }

  // ----- The master index: totals -----

  /** `sum(len(files) for files in catalog.values())`. */
  function TotalFiles(catalog: Catalog): (total: int)
    ensures total == |Flatten(catalog)|
  {
    SizesSum(catalog);
    Sum(Sizes(catalog))
  }

  // ----- The master index: counts by month -----

  /** `date[:7]`. */
  function MonthOf(date: string): string {
    if |date| >= 7 then date[..7] else date
  }

  /** The month an item is counted under; undated items are not counted. */
  function MonthKey(x: Item): Option<string> {
    if Dated(x) then Some(MonthOf(DateKey(x))) else None
  }

  /** One more item read by the month count. */
  lemma CountMonthStep(done: seq<Item>, items: seq<Item>, i: nat, next: nat, before: map<string, nat>, after: map<string, nat>)
    requires next == i + 1 <= |items|
    requires before == Counts(done + items[..i], MonthKey)
    requires after == if Dated(items[i])
      then before[MonthOf(DateKey(items[i])) := CountOf(before, MonthOf(DateKey(items[i]))) + 1]
      else before
    ensures after == Counts(done + items[..next], MonthKey)
  {
    var xs, x := done + items[..i], items[i];
    assert done + items[..next] == xs + [x];
    CountsSnoc(xs, x, MonthKey);
  }

  /** The inner loop of the month count: one category's items added to
      the counts of the items before them. */
  method CountCategory(counts: map<string, nat>, done: seq<Item>, items: seq<Item>) returns (months: map<string, nat>)
    requires counts == Counts(done, MonthKey)
    ensures months == Counts(done + items, MonthKey)
  {
    months := counts;
    assert done + items[..0] == done;
    var i := 0;
    while i < |items|
      invariant 0 <= i <= |items|
      invariant months == Counts(done + items[..i], MonthKey)
    {
      var next := i + 1;
      var updated := months;
      if Dated(items[i]) {
        var month := MonthOf(DateKey(items[i]));
        updated := months[month := CountOf(months, month) + 1];
      }
      CountMonthStep(done, items, i, next, months, updated);
      months, i := updated, next;
    }
    assert items[..i] == items;
  }

  /** The loops filling `months[month] += 1` over every category. */
  method CountMonths(catalog: Catalog) returns (months: map<string, nat>)
    ensures months == Counts(Flatten(catalog), MonthKey)
  {
    months := map[];
    CountsEmpty(Flatten(catalog[..0]), MonthKey);
    var c := 0;
    while c < |catalog|
      invariant 0 <= c <= |catalog|
      invariant months == Counts(Flatten(catalog[..c]), MonthKey)
    {
      months := CountCategory(months, Flatten(catalog[..c]), catalog[c]);
      FlattenSnoc(catalog, c, c + 1);
      c := c + 1;
    }
    assert catalog[..c] == catalog;
  }

  /** The per-month counts add up to the number of dated items. */
  lemma MonthCountsTotal(xs: seq<Item>)
    ensures SumValues(Counts(xs, MonthKey)) == |Filter(xs, Dated)|
  {
    CountsSum(xs, MonthKey);
    FilterExt(xs, HasKey(MonthKey), Dated);
  }

  /** The months of the dated items, in order. */
  function MonthsOf(xs: seq<Item>): (ms: seq<string>)
    ensures |ms| == |Filter(xs, Dated)|
  {
    var dated := Filter(xs, Dated);
    seq(|dated|, i requires 0 <= i < |dated| => MonthOf(DateKey(dated[i])))
  }

  lemma MonthsOfAreCounted(xs: seq<Item>, m: string)
    requires m in MonthsOf(xs)
    ensures m in Keys(xs, MonthKey)
  {
    var dated := Filter(xs, Dated);
    var ms := MonthsOf(xs);
    var i :| 0 <= i < |ms| && ms[i] == m;
    assert dated[i] in dated;
    var j :| 0 <= j < |xs| && xs[j] == dated[i];
    assert MonthKey(xs[j]) == Some(m);
  }

  lemma CountedAreMonthsOf(xs: seq<Item>, m: string)
    requires m in Keys(xs, MonthKey)
    ensures m in MonthsOf(xs)
  {
    var dated := Filter(xs, Dated);
    var j :| 0 <= j < |xs| && MonthKey(xs[j]).Some? && MonthKey(xs[j]).value == m;
    assert xs[j] in dated;
    var i :| 0 <= i < |dated| && dated[i] == xs[j];
    assert MonthsOf(xs)[i] == m;
  }

  /** A month is among the items' months exactly when it is counted. */
  lemma MonthsOfCounted(xs: seq<Item>, m: string)
    ensures m in MonthsOf(xs) <==> m in Counts(xs, MonthKey)
  {
    if m in MonthsOf(xs) {
      MonthsOfAreCounted(xs, m);
    }
    if m in Counts(xs, MonthKey) {
      assert m in Keys(xs, MonthKey);
      CountedAreMonthsOf(xs, m);
    }
  }

  function Ident(s: string): string {
    s
  }

  /** The order of `sorted(..., reverse=True)` on strings. */
  function LexGe(a: string, b: string): bool {
    LexLe(b, a)
  }

  lemma LexGeTotalPreorder()
    ensures TotalPreorder(LexGe)
  {
    LexLeTotalPreorder();
  }

  /** `sorted(keys, reverse=True)` for the keys of a dict filled from `ks`. */
  function NewestFirst(ks: seq<string>): seq<string> {
    SortBy(Distinct(ks), Ident, LexGe)
  }

  /** Each key once, the greatest first. */
  lemma NewestFirstSpec(ks: seq<string>)
    ensures forall k :: multiset(NewestFirst(ks))[k] == if k in ks then 1 else 0
    ensures forall i, j :: 0 <= i < j < |NewestFirst(ks)| ==> LexLe(NewestFirst(ks)[j], NewestFirst(ks)[i])
  {
    LexGeTotalPreorder();
    SortBySpec(Distinct(ks), Ident, LexGe);
  }

  /** The "Browse by Month" list, `None` when `strptime(month, "%Y-%m")`
      raises on one of its months and the master index is not written. */
  function MasterMonths(xs: seq<Item>): Option<seq<string>> {
    var ms := NewestFirst(MonthsOf(xs));
    if forall i :: 0 <= i < |ms| ==> ParseMonth(ms[i]).Some? then Some(ms) else None
  }

  /** The master index stops exactly when a counted month does not read
      back. */
  lemma MasterStops(xs: seq<Item>)
    ensures MasterMonths(xs).None? <==> exists m :: m in Counts(xs, MonthKey) && ParseMonth(m).None?
  {
    var ms, counts := NewestFirst(MonthsOf(xs)), Counts(xs, MonthKey);
    assert MasterMonths(xs).None? <==> !forall i :: 0 <= i < |ms| ==> ParseMonth(ms[i]).Some?;
    ListedAreCounted(xs);
    AllMonthsRead(ms, counts.Keys);
  }

  /** A month is listed exactly when it is counted. */
  lemma ListedAreCounted(xs: seq<Item>)
    ensures forall m :: m in NewestFirst(MonthsOf(xs)) <==> m in Counts(xs, MonthKey).Keys
  {
    var ms := NewestFirst(MonthsOf(xs));
    ListedMonths(xs);
    forall m ensures m in ms <==> m in Counts(xs, MonthKey).Keys {
      assert m in ms <==> multiset(ms)[m] > 0;
    }
  }

  /** When the master index is written, it lists every counted month once,
      newest first. */
  lemma MonthListing(xs: seq<Item>)
    ensures MasterMonths(xs).Some? ==> MasterMonths(xs).value == NewestFirst(MonthsOf(xs))
    ensures MasterMonths(xs).Some? ==>
      forall m :: multiset(MasterMonths(xs).value)[m] == if m in Counts(xs, MonthKey) then 1 else 0
    ensures MasterMonths(xs).Some? ==>
      forall i, j :: 0 <= i < j < |MasterMonths(xs).value| ==> LexLe(MasterMonths(xs).value[j], MasterMonths(xs).value[i])
  {
    if MasterMonths(xs).Some? {
      ListedMonths(xs);
    }
  }

  /** The listed months: every counted month once, newest first. */
  lemma ListedMonths(xs: seq<Item>)
    ensures var ms := NewestFirst(MonthsOf(xs));
      (forall m :: multiset(ms)[m] == if m in Counts(xs, MonthKey) then 1 else 0)
      && forall i, j :: 0 <= i < j < |ms| ==> LexLe(ms[j], ms[i])
  {
    var ms := NewestFirst(MonthsOf(xs));
    NewestFirstSpec(MonthsOf(xs));
    forall m ensures multiset(ms)[m] == if m in Counts(xs, MonthKey) then 1 else 0 {
      MonthsOfCounted(xs, m);
    }
  }

  /** Every listed month reads back exactly when every counted one does. */
  lemma AllMonthsRead(ms: seq<string>, counted: set<string>)
    requires forall m :: m in ms <==> m in counted
    ensures (forall i :: 0 <= i < |ms| ==> ParseMonth(ms[i]).Some?) <==> forall m :: m in counted ==> ParseMonth(m).Some?
  {
    if forall i :: 0 <= i < |ms| ==> ParseMonth(ms[i]).Some? {
      forall m | m in counted ensures ParseMonth(m).Some? {
        var i :| 0 <= i < |ms| && ms[i] == m;
      }
    }
  }

  /** For names read from files, the master index stops exactly when some
      name carries a date whose year is 0000 or whose month is not 01..12. */
  lemma MasterRaises(xs: seq<Item>)
    requires FromNames(xs)
    ensures MasterMonths(xs).None? <==> exists i :: 0 <= i < |xs| && Dated(xs[i]) && BadMonth(DateKey(xs[i]))
  {
    MasterStops(xs);
    if MasterMonths(xs).None? {
      var m :| m in Counts(xs, MonthKey) && ParseMonth(m).None?;
      assert m in Keys(xs, MonthKey);
      var i :| 0 <= i < |xs| && MonthKey(xs[i]).Some? && MonthKey(xs[i]).value == m;
      DateKeyShape(xs[i]);
      KeyParses(DateKey(xs[i]));
    }
    if exists i :: 0 <= i < |xs| && Dated(xs[i]) && BadMonth(DateKey(xs[i])) {
      var i :| 0 <= i < |xs| && Dated(xs[i]) && BadMonth(DateKey(xs[i]));
      var m := MonthOf(DateKey(xs[i]));
      assert MonthKey(xs[i]) == Some(m);
      assert m in Keys(xs, MonthKey);
      KeyParses(DateKey(xs[i]));
    }
  }

  // ----- The master index: date range -----

  /** The dates of the dated items, in order (`all_dates`). */
  function DatesOf(xs: seq<Item>): (ds: seq<string>)
    ensures |ds| == |Filter(xs, Dated)|
  {
    var dated := Filter(xs, Dated);
    seq(|dated|, i requires 0 <= i < |dated| => DateKey(dated[i]))
  }

  /** A date is listed exactly when a dated item carries it. */
  lemma DatesOfMembers(xs: seq<Item>, d: string)
    ensures d in DatesOf(xs) <==> exists j :: 0 <= j < |xs| && Dated(xs[j]) && DateKey(xs[j]) == d
  {
    var dated := Filter(xs, Dated);
    var ds := DatesOf(xs);
    if d in ds {
      var i :| 0 <= i < |ds| && ds[i] == d;
      assert dated[i] in dated;
      var j :| 0 <= j < |xs| && xs[j] == dated[i];
    }
    if exists j :: 0 <= j < |xs| && Dated(xs[j]) && DateKey(xs[j]) == d {
      var j :| 0 <= j < |xs| && Dated(xs[j]) && DateKey(xs[j]) == d;
      assert xs[j] in dated;
      var i :| 0 <= i < |dated| && dated[i] == xs[j];
      assert ds[i] == d;
    }
  }

  /** `min(all_dates)`: a later date replaces the current one only when it
      is strictly smaller. */
  function MinDate(ds: seq<string>): (m: string)
    requires ds != []
    ensures m in ds
  {
    if |ds| == 1 then ds[0]
    else
      var m := MinDate(ds[..|ds| - 1]);
      var d := ds[|ds| - 1];
      if LexLe(d, m) && d != m then d else m
  }

  /** `max(all_dates)`. */
  function MaxDate(ds: seq<string>): (m: string)
    requires ds != []
    ensures m in ds
  {
    if |ds| == 1 then ds[0]
    else
      var m := MaxDate(ds[..|ds| - 1]);
      var d := ds[|ds| - 1];
      if LexLe(m, d) && d != m then d else m
  }

  lemma {:induction false} MinDateLeast(ds: seq<string>)
    requires ds != []
    ensures forall i :: 0 <= i < |ds| ==> LexLe(MinDate(ds), ds[i])
  {
    var r := MinDate(ds);
    LexLeTotal(r, r);
    if |ds| > 1 {
      var init, d := ds[..|ds| - 1], ds[|ds| - 1];
      var m := MinDate(init);
      MinDateLeast(init);
      LexLeTotal(d, m);
      forall i | 0 <= i < |ds| ensures LexLe(r, ds[i]) {
        if i < |ds| - 1 {
          assert ds[i] == init[i];
          if r == d {
            LexLeTransitive(d, m, ds[i]);
          }
        }
      }
    }
  }

  lemma {:induction false} MaxDateGreatest(ds: seq<string>)
    requires ds != []
    ensures forall i :: 0 <= i < |ds| ==> LexLe(ds[i], MaxDate(ds))
  {
    var r := MaxDate(ds);
    LexLeTotal(r, r);
    if |ds| > 1 {
      var init, d := ds[..|ds| - 1], ds[|ds| - 1];
      var m := MaxDate(init);
      MaxDateGreatest(init);
      LexLeTotal(d, m);
      forall i | 0 <= i < |ds| ensures LexLe(ds[i], r) {
        if i < |ds| - 1 {
          assert ds[i] == init[i];
          if r == d {
            LexLeTransitive(ds[i], m, d);
          }
        }
      }
    }
  }

  /** The "Date Range" line: earliest and latest date, or "Unknown" for both. */
  function DateRange(catalog: Catalog): (string, string) {
    var ds := DatesOf(Flatten(catalog));
    if ds == [] then ("Unknown", "Unknown") else (MinDate(ds), MaxDate(ds))
  }

  /** With no dated item both ends are "Unknown"; otherwise both are dates
      of the catalog, in order, and every date lies between them. */
  lemma DateRangeSpec(catalog: Catalog)
    ensures var ds := DatesOf(Flatten(catalog));
      (ds == [] ==> DateRange(catalog) == ("Unknown", "Unknown"))
      && (ds != [] ==>
        var (earliest, latest) := DateRange(catalog);
        earliest in ds && latest in ds && LexLe(earliest, latest)
        && forall i :: 0 <= i < |ds| ==> LexLe(earliest, ds[i]) && LexLe(ds[i], latest))
  {
    var ds := DatesOf(Flatten(catalog));
    if ds != [] {
      MinDateLeast(ds);
      MaxDateGreatest(ds);
      var i :| 0 <= i < |ds| && ds[i] == MaxDate(ds);
    }
  }

  // ----- Monthly indexes -----

  /** `item["date"] and item["date"].startswith(year_month)`. */
  function InMonth(yearMonth: string): Item -> bool {
    x => Dated(x) && StartsWith(DateKey(x), yearMonth)
  }

  /** The loops filling `month_items[category]`; a category with no items
      of the month keeps an empty list. */
  method CollectMonth(catalog: Catalog, yearMonth: string) returns (monthItems: seq<seq<Item>>)
    ensures monthItems == FilterEach(catalog, InMonth(yearMonth))
  {
    monthItems := [];
    var c := 0;
    while c < |catalog|
      invariant 0 <= c <= |catalog|
      invariant monthItems == FilterEach(catalog[..c], InMonth(yearMonth))
    {
      var items := catalog[c];
      var kept := [];
      var i := 0;
      while i < |items|
        invariant 0 <= i <= |items|
        invariant kept == Filter(items[..i], InMonth(yearMonth))
      {
        var next := i + 1;
        FilterSnoc(items, i, next, InMonth(yearMonth));
        if Dated(items[i]) && StartsWith(DateKey(items[i]), yearMonth) {
          kept := kept + [items[i]];
        }
        i := next;
      }
      assert items[..i] == items;
      assert FilterEach(catalog[..c + 1], InMonth(yearMonth)) == FilterEach(catalog[..c], InMonth(yearMonth)) + [kept];
      monthItems := monthItems + [kept];
      c := c + 1;
    }
    assert catalog[..c] == catalog;
  }

  /** What a monthly index page shows: the month's items by category, their
      number, and the days with data, newest first. */
  datatype MonthIndex = MonthIndex(byCategory: seq<seq<Item>>, total: int, days: seq<string>)

  /** How a page generator ends: it raises, or it returns, having written
      its page or (`None`) having returned early without writing. */
  datatype Run<T> = Raised | Returned(page: Option<T>)

  /** `generate_monthly_index`: `strptime(year_month, "%Y-%m")` first,
      then nothing written for a month without items, then
      `strptime(date, "%Y-%m-%d")` on every day listed. */
  function MonthlyIndex(catalog: Catalog, yearMonth: string): Run<MonthIndex> {
    if ParseMonth(yearMonth).None? then Raised
    else
      var monthItems := FilterEach(catalog, InMonth(yearMonth));
      if Flatten(monthItems) == [] then Returned(None)
      else
        var days := NewestFirst(DatesOf(Flatten(monthItems)));
        if forall i :: 0 <= i < |days| ==> ParseDay(days[i]).Some? then
          Returned(Some(MonthIndex(monthItems, TotalFiles(monthItems), days)))
        else Raised
  }

  /** The days of a month read back exactly when the date of every item of
      the month does. */
  lemma MonthDaysRead(all: seq<Item>, yearMonth: string)
    ensures var days := NewestFirst(DatesOf(Filter(all, InMonth(yearMonth))));
      (forall i :: 0 <= i < |days| ==> ParseDay(days[i]).Some?)
      <==> forall k :: 0 <= k < |all| && InMonth(yearMonth)(all[k]) ==> ParseDay(DateKey(all[k])).Some?
  {
    var days := NewestFirst(DatesOf(Filter(all, InMonth(yearMonth))));
    var p := InMonth(yearMonth);
    forall d ensures d in days <==> exists k :: 0 <= k < |all| && p(all[k]) && Dated(all[k]) && DateKey(all[k]) == d {
      MonthDay(all, yearMonth, d);
    }
    assert forall k :: 0 <= k < |all| && p(all[k]) ==> Dated(all[k]);
    DaysRead(days, all, p);
  }

  /** A day is listed exactly when an item of the month carries it. */
  lemma MonthDay(all: seq<Item>, yearMonth: string, d: string)
    ensures d in NewestFirst(DatesOf(Filter(all, InMonth(yearMonth)))) <==>
      exists k :: 0 <= k < |all| && InMonth(yearMonth)(all[k]) && Dated(all[k]) && DateKey(all[k]) == d
  {
    var ds := DatesOf(Filter(all, InMonth(yearMonth)));
    var days := NewestFirst(ds);
    NewestFirstSpec(ds);
    assert d in days <==> multiset(days)[d] > 0;
    assert d in ds <==> multiset(ds)[d] > 0;
    DatesOfFiltered(all, InMonth(yearMonth), d);
  }

  /** Listed days that are exactly the dates of the kept items all read
      back exactly when the kept items' dates all do. */
  lemma DaysRead(days: seq<string>, all: seq<Item>, p: Item -> bool)
    requires forall d :: d in days <==> exists k :: 0 <= k < |all| && p(all[k]) && Dated(all[k]) && DateKey(all[k]) == d
    requires forall k :: 0 <= k < |all| && p(all[k]) ==> Dated(all[k])
    ensures (forall i :: 0 <= i < |days| ==> ParseDay(days[i]).Some?)
      <==> forall k :: 0 <= k < |all| && p(all[k]) ==> ParseDay(DateKey(all[k])).Some?
  {
    if forall i :: 0 <= i < |days| ==> ParseDay(days[i]).Some? {
      forall k | 0 <= k < |all| && p(all[k]) ensures ParseDay(DateKey(all[k])).Some? {
        assert DateKey(all[k]) in days;
      }
    } else {
      var i :| 0 <= i < |days| && ParseDay(days[i]).None?;
      assert days[i] in days;
      var k :| 0 <= k < |all| && p(all[k]) && Dated(all[k]) && DateKey(all[k]) == days[i];
    }
  }

  /** A monthly index raises exactly when the month or the date of one of
      its items does not read back; it is skipped exactly when no item's
      date starts with the month; when written, it counts those items and
      lists as days exactly their dates, each once, newest first. */
  lemma MonthlyIndexSpec(catalog: Catalog, yearMonth: string)
    ensures var all := Flatten(catalog);
      MonthlyIndex(catalog, yearMonth).Raised? <==>
        ParseMonth(yearMonth).None?
        || exists k :: 0 <= k < |all| && InMonth(yearMonth)(all[k]) && ParseDay(DateKey(all[k])).None?
    ensures var all := Flatten(catalog);
      MonthlyIndex(catalog, yearMonth) == Returned(None) <==>
        ParseMonth(yearMonth).Some? && forall k :: 0 <= k < |all| ==> !InMonth(yearMonth)(all[k])
    ensures var all := Flatten(catalog);
      MonthlyIndex(catalog, yearMonth).Returned? && MonthlyIndex(catalog, yearMonth).page.Some? ==>
        MonthlyIndex(catalog, yearMonth).page.value.total == |Filter(all, InMonth(yearMonth))|
    ensures var all := Flatten(catalog);
      MonthlyIndex(catalog, yearMonth).Returned? && MonthlyIndex(catalog, yearMonth).page.Some? ==>
        var days := MonthlyIndex(catalog, yearMonth).page.value.days;
        (forall d :: multiset(days)[d] == if d in DatesOf(Filter(all, InMonth(yearMonth))) then 1 else 0)
        && (forall i, j :: 0 <= i < j < |days| ==> LexLe(days[j], days[i]))
  {
    var all := Flatten(catalog);
    var f := Filter(all, InMonth(yearMonth));
    MonthlyIndexOnItems(catalog, yearMonth);
    FilterNonEmpty(all, InMonth(yearMonth));
    NewestFirstSpec(DatesOf(f));
  }

  /** The monthly index in terms of the month's items taken from the whole
      catalog at once. */
  lemma MonthlyIndexOnItems(catalog: Catalog, yearMonth: string)
    ensures var f := Filter(Flatten(catalog), InMonth(yearMonth));
      MonthlyIndex(catalog, yearMonth) ==
        if ParseMonth(yearMonth).None? then Raised
        else if f == [] then Returned(None)
        else if forall k :: 0 <= k < |Flatten(catalog)| && InMonth(yearMonth)(Flatten(catalog)[k]) ==>
          ParseDay(DateKey(Flatten(catalog)[k])).Some?
        then Returned(Some(MonthIndex(FilterEach(catalog, InMonth(yearMonth)), |f|, NewestFirst(DatesOf(f)))))
        else Raised
  {
    FilterFlatten(catalog, InMonth(yearMonth));
    MonthDaysRead(Flatten(catalog), yearMonth);
  }

  /** The dates of the items passing a filter. */
  lemma DatesOfFiltered(xs: seq<Item>, p: Item -> bool, d: string)
    ensures d in DatesOf(Filter(xs, p)) <==>
      exists i :: 0 <= i < |xs| && p(xs[i]) && Dated(xs[i]) && DateKey(xs[i]) == d
  {
    var ys := Filter(xs, p);
    DatesOfMembers(ys, d);
    if d in DatesOf(ys) {
      var j :| 0 <= j < |ys| && Dated(ys[j]) && DateKey(ys[j]) == d;
      FilterSource(xs, p, j);
    }
    if exists i :: 0 <= i < |xs| && p(xs[i]) && Dated(xs[i]) && DateKey(xs[i]) == d {
      var i :| 0 <= i < |xs| && p(xs[i]) && Dated(xs[i]) && DateKey(xs[i]) == d;
      FilterKeeps(xs, p, i);
    }
  }

  /** A day is listed on a monthly index exactly when an item of that
      month carries that date. */
  lemma MonthlyIndexDays(catalog: Catalog, yearMonth: string, d: string)
    requires MonthlyIndex(catalog, yearMonth).Returned? && MonthlyIndex(catalog, yearMonth).page.Some?
    ensures d in MonthlyIndex(catalog, yearMonth).page.value.days <==>
      exists i :: 0 <= i < |Flatten(catalog)| && InMonth(yearMonth)(Flatten(catalog)[i]) && DateKey(Flatten(catalog)[i]) == d
  {
    var days := MonthlyIndex(catalog, yearMonth).page.value.days;
    MonthlyIndexSpec(catalog, yearMonth);
    assert d in days <==> multiset(days)[d] > 0;
    DatesOfFiltered(Flatten(catalog), InMonth(yearMonth), d);
  }

  /** For a date read from a name, starting with a month string is having
      that month as its first seven characters. */
  lemma InMonthIsMonthKey(x: Item, m: string)
    requires x.date == ExtractDate(x.name) && |m| == 7
    ensures InMonth(m)(x) == KeyIs(MonthKey, m)(x)
  {
    if Dated(x) {
      var d := DateKey(x);
      assert |d| == 10;
      assert InMonth(m)(x) <==> d[..7] == m;
      assert MonthKey(x) == Some(d[..7]);
    }
    assert KeyIs(MonthKey, m)(x) == (MonthKey(x) == Some(m));
  }

  /** A counted month comes from a ten-character date, so it is seven
      characters long and some item lies in it. */
  lemma CountedMonth(all: seq<Item>, m: string)
    requires FromNames(all)
    requires m in Counts(all, MonthKey)
    ensures |m| == 7
    ensures exists k :: 0 <= k < |all| && InMonth(m)(all[k])
  {
    assert m in Keys(all, MonthKey);
    var k :| 0 <= k < |all| && MonthKey(all[k]).Some? && MonthKey(all[k]).value == m;
    var x := all[k];
    DateKeyShape(x);
    assert InMonth(m)(x);
  }

  /** For a catalog read from file names whose master index was written,
      the monthly index of a counted month raises exactly when one of the
      month's items carries a date that is not a calendar date (such as
      2025-02-30); otherwise it is written, and its total is the master's
      count for the month. */
  lemma MasterAgreesWithMonthly(catalog: Catalog, m: string)
    requires FromNames(Flatten(catalog))
    requires MasterMonths(Flatten(catalog)).Some?
    requires m in Counts(Flatten(catalog), MonthKey)
    ensures var all := Flatten(catalog);
      MonthlyIndex(catalog, m).Raised? <==> exists k :: 0 <= k < |all| && InMonth(m)(all[k]) && BadDay(DateKey(all[k]))
    ensures !MonthlyIndex(catalog, m).Raised? ==>
      MonthlyIndex(catalog, m).page.Some? && MonthlyIndex(catalog, m).page.value.total == Counts(Flatten(catalog), MonthKey)[m]
  {
    var all := Flatten(catalog);
    CountedMonth(all, m);
    MasterStops(all);
    assert ParseMonth(m).Some?;
    forall k | 0 <= k < |all| ensures InMonth(m)(all[k]) == KeyIs(MonthKey, m)(all[k]) {
      InMonthIsMonthKey(all[k], m);
    }
    forall k | 0 <= k < |all| && InMonth(m)(all[k]) ensures ParseDay(DateKey(all[k])).None? <==> BadDay(DateKey(all[k])) {
      DateKeyShape(all[k]);
      KeyParses(DateKey(all[k]));
    }
    FilterExt(all, InMonth(m), KeyIs(MonthKey, m));
    MonthlyIndexSpec(catalog, m);
  }

  // ----- Type indexes -----

  /** What a type index page shows: the number of files, the dated ones by
      month, and the months newest first. */
  datatype TypeIndex = TypeIndex(total: int, byMonth: map<string, seq<Item>>, months: seq<string>)

  /** The two `strptime` calls a type index makes for a dated item: on its
      month and on its date. */
  predicate KeyReads(x: Item) {
    ParseMonth(MonthOf(DateKey(x))).Some? && ParseDay(DateKey(x)).Some?
  }

  /** `generate_type_index`: nothing for an empty category; it raises when
      a month or a date does not read back, and otherwise writes the total,
      the dated items by month, and the months newest first. */
  function TypeIndexOf(items: seq<Item>): Run<TypeIndex> {
    if items == [] then Returned(None)
    else if forall i :: 0 <= i < |items| && Dated(items[i]) ==> KeyReads(items[i]) then
      Returned(Some(TypeIndex(|items|, Group(items, MonthKey), NewestFirst(MonthsOf(items)))))
    else Raised
  }

  /** The type index page, with the `strptime` of every month and dated
      item made before the page is written. */
  method BuildTypeIndex(items: seq<Item>) returns (r: Run<TypeIndex>)
    ensures r == TypeIndexOf(items)
  {
    if items == [] {
      return Returned(None);
    }
    var readable := true;
    var i := 0;
    while i < |items|
      invariant 0 <= i <= |items|
      invariant readable <==> forall j :: 0 <= j < i && Dated(items[j]) ==> KeyReads(items[j])
    {
      if Dated(items[i]) && !KeyReads(items[i]) {
        readable := false;
      }
      i := i + 1;
    }
    if !readable {
      return Raised;
    }
    var byMonth := GroupBy(items, MonthKey);
    r := Returned(Some(TypeIndex(|items|, byMonth, NewestFirst(MonthsOf(items)))));
  }

  /** For items read from file names, a type index raises exactly when one
      of them carries a date that is not a calendar date, and is skipped
      exactly for an empty category. */
  lemma TypeIndexRaises(items: seq<Item>)
    requires FromNames(items)
    ensures TypeIndexOf(items) == Returned(None) <==> items == []
    ensures TypeIndexOf(items).Raised? <==>
      exists i :: 0 <= i < |items| && Dated(items[i]) && BadDay(DateKey(items[i]))
  {
    forall i | 0 <= i < |items| && Dated(items[i]) ensures KeyReads(items[i]) <==> !BadDay(DateKey(items[i])) {
      var d := DateKey(items[i]);
      DateKeyShape(items[i]);
      KeyParses(d);
      assert MonthOf(d) == d[..7];
    }
  }

  /** Every dated item sits in the group of its month and no undated one
      is grouped, so the groups together hold the dated items. */
  lemma TypeIndexGroups(items: seq<Item>)
    ensures forall i :: 0 <= i < |items| && Dated(items[i]) ==>
      MonthOf(DateKey(items[i])) in Group(items, MonthKey) && items[i] in Group(items, MonthKey)[MonthOf(DateKey(items[i]))]
    ensures forall m :: m in Group(items, MonthKey) ==>
      forall x :: x in Group(items, MonthKey)[m] ==> Dated(x) && MonthOf(DateKey(x)) == m
    ensures SumValues(Counts(items, MonthKey)) == |Filter(items, Dated)|
  {
    forall i | 0 <= i < |items| && Dated(items[i])
      ensures MonthOf(DateKey(items[i])) in Group(items, MonthKey)
      ensures items[i] in Group(items, MonthKey)[MonthOf(DateKey(items[i]))]
    {
      assert MonthOf(DateKey(items[i])) in Keys(items, MonthKey);
    }
    MonthCountsTotal(items);
  }

  // ----- Names with impossible dates -----

  /** The year of a key, digit by digit. */
  lemma YearDigits(s: string)
    requires FourDigits(s)
    ensures YearOf(s) == 1000 * DigitValue(s[0]) + 100 * DigitValue(s[1]) + 10 * DigitValue(s[2]) + DigitValue(s[3])
  {
    var t4, t3, t2, t1 := s[..4], s[..3], s[..2], s[..1];
    assert t4[..3] == t3 && t3[..2] == t2 && t2[..1] == t1 && t1[..0] == [];
    assert DigitsValue(t4) == DigitsValue(t3) * 10 + DigitValue(s[3]);
    assert DigitsValue(t3) == DigitsValue(t2) * 10 + DigitValue(s[2]);
    assert DigitsValue(t2) == DigitsValue(t1) * 10 + DigitValue(s[1]);
    assert DigitsValue(t1) == DigitsValue([]) * 10 + DigitValue(s[0]);
  }

  /** A name made of a date and a suffix, read as the catalog reads it. */
  lemma LeadingEntry(date: string, rest: string)
    requires |date| == 10 && DateAt(date, 0)
    ensures Entry(date + rest).date == Some(date) && DateKey(Entry(date + rest)) == date
    ensures FromNames([Entry(date + rest)])
  {
    ExtractLeadingDate(date, rest);
  }

  /** A month of 13 in a file name stops the master index. */
  lemma MonthThirteenStopsMaster()
    ensures MasterMonths([Entry("2025-13-01" + "-notes.md")]).None?
  {
    var d := "2025-13-01";
    LeadingEntry(d, "-notes.md");
    YearDigits(d);
    assert BadMonth(d);
    MasterRaises([Entry(d + "-notes.md")]);
  }

  /** A year of 0000 in a file name stops the master index. */
  lemma YearZeroStopsMaster()
    ensures MasterMonths([Entry("0000-01-05" + "-x.md")]).None?
  {
    var d := "0000-01-05";
    LeadingEntry(d, "-x.md");
    YearDigits(d);
    assert BadMonth(d);
    MasterRaises([Entry(d + "-x.md")]);
  }

  /** 2025-02-30 in a file name does not stop the master index: its month
      reads back. */
  lemma FebruaryThirtiethPassesMaster()
    ensures MasterMonths([Entry("2025-02-30" + "-call.md")]).Some?
  {
    LeadingEntry("2025-02-30", "-call.md");
    FebruaryThirtiethKey();
    MasterRaises([Entry("2025-02-30" + "-call.md")]);
  }

  /** 2025-02-30 in a file name stops the type index of its category. */
  lemma FebruaryThirtiethStopsType()
    ensures TypeIndexOf([Entry("2025-02-30" + "-call.md")]).Raised?
  {
    LeadingEntry("2025-02-30", "-call.md");
    FebruaryThirtiethKey();
    TypeIndexRaises([Entry("2025-02-30" + "-call.md")]);
  }

  /** 2025-02-30 in a file name stops the index of February 2025. */
  lemma FebruaryThirtiethStopsMonth()
    ensures MonthlyIndex([[Entry("2025-02-30" + "-call.md")]], "2025-02").Raised?
  {
    var b := Entry("2025-02-30" + "-call.md");
    LeadingEntry("2025-02-30", "-call.md");
    FebruaryThirtiethKey();
    assert Flatten([[b]]) == [b];
    assert InMonth("2025-02")(b);
    MonthlyIndexSpec([[b]], "2025-02");
  }

  /** 2025-02-30 has a month that reads back and is not a date. */
  lemma FebruaryThirtiethKey()
    ensures var d := "2025-02-30";
      |d| == 10 && DateAt(d, 0) && !BadMonth(d) && BadDay(d)
      && ParseDay(d).None? && ParseMonth("2025-02").Some? && StartsWith(d, "2025-02")
  {
    var d := "2025-02-30";
    YearDigits(d);
    YearDigits("2025-02");
    assert d[..7] == "2025-02";
    KeyParses(d);
  }
}
