/** The dashboard's statistics: spending over the last seven months, the
    current-period trend groups, the all-time analysis groups and the summary
    figures. `now` (the value of `new Date()`) is a parameter throughout. */
module Stats {
  import opened Text
  import opened Seqs
  import opened Calendar
  import opened Ledger

  const MonthNames: seq<string> := ["Jan", "Feb", "Mar", "Apr", "May", "Jun", "Jul", "Aug", "Sep", "Oct", "Nov", "Dec"]
  const DayNames: seq<string> := ["Sun", "Mon", "Tue", "Wed", "Thu", "Fri", "Sat"]

  // ----- filters on the transaction's calendar date ------------------------

  function InYear(y: int): Transaction -> bool {
    (t: Transaction) => t.date.year == y
  }

  function MonthIs(m: int): Transaction -> bool {
    (t: Transaction) => t.date.month == m
  }

  /** Month `m` (1-based) of year `y`. */
  function InMonth(y: int, m: int): Transaction -> bool {
    (t: Transaction) => t.date.year == y && t.date.month == m
  }

  function OnDay(d: Date): Transaction -> bool {
    (t: Transaction) => t.date == d
  }

  /** Same Monday-to-Sunday week as `d`. */
  function InWeekOf(d: Date): Transaction -> bool {
    (t: Transaction) => Monday(t.date) == Monday(d)
  }

  /** `new Date(t.date) >= cutoff` where `cutoff` is `now` moved back `n` days. */
  function Since(now: Instant, n: int): Transaction -> bool {
    (t: Transaction) => OnOrAfterDaysAgo(t.date, now, n)
  }

  // ----- keys --------------------------------------------------------------

  /** `${year}-${String(month).padStart(2, '0')}` for a 1-based month. */
  function MonthKey(y: int, m: int): string
    requires 1 <= m <= 12
  {
    IntToString(y) + "-" + Pad2(m)
  }

  /** `${monthNames[month]} ${year}` for a 1-based month. */
  function MonthLabel(y: int, m: int): string
    requires 1 <= m <= 12
  {
    MonthNames[m - 1] + " " + IntToString(y)
  }

  /** Equal concatenations with equally long second parts have equal parts. */
  lemma SplitEqual(a: string, c: string, b: string, d: string)
    requires a + c == b + d && |c| == |d|
    ensures a == b && c == d
  {
    assert a == (a + c)[..|a|] && b == (b + d)[..|b|];
    assert c == (a + c)[|a|..] && d == (b + d)[|b|..];
  }

  /** An integer, a separator and a two-digit number can be read back from
      their concatenation. */
  lemma NumberedKeyInjective(y1: int, n1: nat, y2: int, n2: nat, sep: string)
    requires n1 < 100 && n2 < 100
    requires IntToString(y1) + sep + Pad2(n1) == IntToString(y2) + sep + Pad2(n2)
    ensures y1 == y2 && n1 == n2
  {
    Pad2Parse(n1);
    Pad2Parse(n2);
    SplitEqual(IntToString(y1) + sep, Pad2(n1), IntToString(y2) + sep, Pad2(n2));
    SplitEqual(IntToString(y1), sep, IntToString(y2), sep);
    Pad2Injective(n1, n2);
    IntToStringInjective(y1, y2);
  }

  /** Distinct months have distinct keys. */
  lemma MonthKeyInjective(y1: int, m1: int, y2: int, m2: int)
    requires 1 <= m1 <= 12 && 1 <= m2 <= 12
    ensures MonthKey(y1, m1) == MonthKey(y2, m2) <==> y1 == y2 && m1 == m2
  {
    if MonthKey(y1, m1) == MonthKey(y2, m2) {
      NumberedKeyInjective(y1, m1, y2, m2, "-");
    }
  }

  /** The all-time week key as written: the calendar year of the week's
      Monday, then `getISOWeek` of that Monday printed and padded to two
      characters (`getISOWeek` is negative for some years around 0). */
  function WeekKeyAsWritten(d: Date): string {
    var mon := Monday(d);
    IntToString(mon.year) + "-W" + PadStart(IntToString(GetIsoWeek(mon)), 2, '0')
  }

  /** The week key with the ISO week-numbering year (the year of the week's
      Thursday) in place of the Monday's calendar year. */
  function WeekKey(d: Date): string {
    var mon := Monday(d);
    IntToString(IsoWeekYear(mon)) + "-W" + Pad2(IsoWeek(mon))
  }

  lemma DayNumbers2024()
    ensures DayNumber(Ymd(2024, 1, 1)) == 19723 && DayNumber(Ymd(2024, 1, 3)) == 19725
    ensures DayNumber(Ymd(2024, 1, 4)) == 19726
    ensures DayNumber(Ymd(2024, 12, 30)) == 20087 && DayNumber(Ymd(2024, 12, 31)) == 20088
    ensures DayNumber(Ymd(2025, 1, 2)) == 20090
  {
  }

  /** The week of `d` from day numbers: its Monday and its Thursday. */
  lemma WeekByNumbers(d: Date, mon: Date, thu: Date)
    requires DayNumber(mon) == DayNumber(d) + 1 - IsoWeekday(d)
    requires DayNumber(thu) == DayNumber(d) + 4 - IsoWeekday(d)
    ensures Monday(d) == mon && Thursday(d) == thu
    ensures IsoWeek(mon) == DayOfYear(thu) / 7 + 1
  {
    DayNumberInjective(Monday(d), mon);
    DayNumberInjective(Thursday(d), thu);
    IsoWeekOfMonday(d);
    IsoWeekByThursday(d);
  }

  /** Wednesday 2024-01-03: Monday 2024-01-01, Thursday 2024-01-04, ISO week 1. */
  lemma WeekOfJanuary3(d: Date)
    requires d == Ymd(2024, 1, 3)
    ensures Monday(d) == Ymd(2024, 1, 1) && IsoWeek(Monday(d)) == 1
    ensures Thursday(d) == Ymd(2024, 1, 4)
  {
    DayNumbers2024();
    assert IsoWeekday(d) == 3;
    var mon: Date, thu: Date := Ymd(2024, 1, 1), Ymd(2024, 1, 4);
    assert DayOfYear(thu) == 3;
    WeekByNumbers(d, mon, thu);
  }

  /** Tuesday 2024-12-31: Monday 2024-12-30, Thursday 2025-01-02, ISO week 1. */
  lemma WeekOfDecember31(d: Date)
    requires d == Ymd(2024, 12, 31)
    ensures Monday(d) == Ymd(2024, 12, 30) && IsoWeek(Monday(d)) == 1
    ensures Thursday(d) == Ymd(2025, 1, 2)
  {
    DayNumbers2024();
    assert IsoWeekday(d) == 2;
    var mon: Date, thu: Date := Ymd(2024, 12, 30), Ymd(2025, 1, 2);
    assert DayOfYear(thu) == 1;
    WeekByNumbers(d, mon, thu);
  }

  /** Wednesday 2024-01-03 and Tuesday 2024-12-31 lie in different weeks, yet
      the key as written files both under "2024-W01": the Monday of the second
      is 2024-12-30, whose ISO week is week 1 of 2025. */
  lemma WeekKeyAsWrittenMergesWeeks()
    ensures WeekKeyAsWritten(Ymd(2024, 1, 3)) == WeekKeyAsWritten(Ymd(2024, 12, 31))
    ensures Monday(Ymd(2024, 1, 3)) != Monday(Ymd(2024, 12, 31))
  {
    var a: Date, b: Date := Ymd(2024, 1, 3), Ymd(2024, 12, 31);
    AsWrittenWeekOne(a);
    AsWrittenWeekOne(b);
    WeekKeyAsWrittenOf(a, 2024, 1);
    WeekKeyAsWrittenOf(b, 2024, 1);
  }

  lemma WeekKeyAsWrittenOf(d: Date, y: int, w: int)
    requires Monday(d).year == y && GetIsoWeek(Monday(d)) == w
    ensures WeekKeyAsWritten(d) == IntToString(y) + "-W" + PadStart(IntToString(w), 2, '0')
  {
  }

  /** Both dates' Mondays have four-digit years, so `getISOWeek` is the ISO week. */
  lemma AsWrittenWeekOne(d: Date)
    requires d == Ymd(2024, 1, 3) || d == Ymd(2024, 12, 31)
    ensures Monday(d).year == 2024 && GetIsoWeek(Monday(d)) == 1
    ensures Monday(d) == (if d.month == 1 then Ymd(2024, 1, 1) else Ymd(2024, 12, 30))
  {
    IsoWeekOfMonday(d);
    if d.month == 1 {
      WeekOfJanuary3(d);
    } else {
      WeekOfDecember31(d);
    }
    GetIsoWeekIn2024(Monday(d));
  }

  lemma GetIsoWeekIn2024(mon: Date)
    requires mon.year == 2024 && 2024 <= Thursday(mon).year <= 2025
    ensures GetIsoWeek(mon) == IsoWeek(mon)
  {
  }

  /** With the week-numbering year the key identifies the week: two dates
      share a key exactly when they share their Monday. */
  lemma WeekKeyIdentifiesWeek(a: Date, b: Date)
    ensures WeekKey(a) == WeekKey(b) <==> Monday(a) == Monday(b)
  {
    if WeekKey(a) == WeekKey(b) {
      NumberedKeyInjective(IsoWeekYear(Monday(a)), IsoWeek(Monday(a)),
                           IsoWeekYear(Monday(b)), IsoWeek(Monday(b)), "-W");
      IsoWeekOfMonday(a);
      IsoWeekOfMonday(b);
      IsoWeekIdentifiesWeek(a, b);
    }
  }

  // ----- getMonthlySpendLast6Months ----------------------------------------

  datatype MonthSpend = MonthSpend(month: string, spending: real, monthKey: string)

  /** The year and month of `new Date(now.getFullYear(), now.getMonth() - i, 1)`:
      `i` months before the current one. */
  function MonthsBack(now: Instant, i: int): (r: (int, int))
    ensures 1 <= r.1 <= 12
    ensures var y := now.date.year;
      r.0 * 12 + r.1 == (if 0 <= y <= 99 then 1900 + y else y) * 12 + now.date.month - i
  {
    MonthStart(now.date.year, now.date.month - 1 - i)
  }

  /** The entry the loop pushes for a month. */
  function MonthSpendOf(data: seq<Transaction>, ym: (int, int)): MonthSpend
    requires 1 <= ym.1 <= 12
  {
    MonthSpend(MonthLabel(ym.0, ym.1), SumWhere(data, InMonth(ym.0, ym.1)), MonthKey(ym.0, ym.1))
  }

  /** Seven entries, oldest first: six months back up to the current month,
      each with the sum of that month's transactions. */
  method MonthlySpendLast6Months(data: seq<Transaction>, now: Instant) returns (months: seq<MonthSpend>)
    ensures |months| == 7
    ensures forall k :: 0 <= k < 7 ==> months[k] == MonthSpendOf(data, MonthsBack(now, 6 - k))
  {
    months := [];
    var i := 6;
    while i >= 0
      invariant -1 <= i <= 6
      invariant |months| == 6 - i
      invariant forall k :: 0 <= k < |months| ==> months[k] == MonthSpendOf(data, MonthsBack(now, 6 - k))
    {
      PushMonth(months, data, now, i);
      months := months + [MonthSpendOf(data, MonthsBack(now, i))];
      i := i - 1;
    }
  }

  /** Pushing month `i` back onto the entries for months 6 .. i + 1 back. */
  lemma PushMonth(months: seq<MonthSpend>, data: seq<Transaction>, now: Instant, i: int)
    requires 0 <= i <= 6 && |months| == 6 - i
    requires forall k :: 0 <= k < |months| ==> months[k] == MonthSpendOf(data, MonthsBack(now, 6 - k))
    ensures var r := months + [MonthSpendOf(data, MonthsBack(now, i))];
      forall k :: 0 <= k < |r| ==> r[k] == MonthSpendOf(data, MonthsBack(now, 6 - k))
  {
    var e := MonthSpendOf(data, MonthsBack(now, i));
    var r := months + [e];
    forall k | 0 <= k < |r| ensures r[k] == MonthSpendOf(data, MonthsBack(now, 6 - k)) {
      if k < |months| {
        assert r[k] == months[k];
      } else {
        assert 6 - k == i && r[k] == e;
      }
    }
  }

  /** The last entry is the current month (for years the `Date` constructor
      does not reinterpret). */
  lemma LastMonthIsCurrent(now: Instant)
    requires !(0 <= now.date.year <= 99)
    ensures MonthsBack(now, 0) == (now.date.year, now.date.month)
  {
    var r := MonthsBack(now, 0);
    assert (r.0 - now.date.year) * 12 == now.date.month - r.1;
  }

  /** The seven months are different months, so their keys differ. */
  lemma MonthKeysDistinct(now: Instant, i: int, j: int)
    requires 0 <= i < j <= 6
    ensures MonthKey(MonthsBack(now, i).0, MonthsBack(now, i).1)
         != MonthKey(MonthsBack(now, j).0, MonthsBack(now, j).1)
  {
    var a, b := MonthsBack(now, i), MonthsBack(now, j);
    MonthKeyInjective(a.0, a.1, b.0, b.1);
  }

  // ----- grouping, sorting and rebuilding an object ------------------------

  /** `keys.reduce((obj, k) => { obj[k] = groups[k]; return obj; }, {})`. */
  function Rebuild(keys: seq<string>, groups: Entries): (r: Entries)
    ensures |r| == |keys| && KeysOf(r) == keys
    ensures forall i :: 0 <= i < |r| ==> r[i].1 == Lookup(groups, keys[i])
  {
    seq(|keys|, i requires 0 <= i < |keys| => (keys[i], Lookup(groups, keys[i])))
  }

  /** Groups `ts` by `key`, sorts the keys with the comparator whose `<= 0`
      is `le`, and rebuilds the object in that order. */
  method SortedGroups(ts: seq<Transaction>, key: Transaction -> string, le: (string, string) -> bool)
    returns (r: Entries)
    requires TotalPreorder(le)
    ensures Distinct(KeysOf(r)) && |r| == |Dedup(KeySeq(ts, key))|
    ensures forall k :: k in KeysOf(r) <==> k in KeySeq(ts, key)
    ensures forall i :: 0 <= i < |r| ==> r[i].1 == SumWhere(ts, HasKey(key, r[i].0))
    ensures SortedBy(KeysOf(r), le)
    ensures SumValues(r) == Total(ts)
  {
    var groups := GroupBy(ts, key);
    var keys := KeysOf(groups);
    var sortedKeys := Sort(keys, le);
    SortSorted(keys, le);
    DistinctPermutation(keys, sortedKeys);
    r := Rebuild(sortedKeys, groups);
    forall k ensures k in sortedKeys <==> k in keys {
      assert k in sortedKeys <==> k in multiset(sortedKeys);
      assert k in keys <==> k in multiset(keys);
    }
    forall i | 0 <= i < |r| ensures r[i].1 == SumWhere(ts, HasKey(key, r[i].0)) {
      assert sortedKeys[i] in keys;
      var j :| 0 <= j < |keys| && keys[j] == sortedKeys[i];
      LookupDistinct(groups, j);
    }
    RebuildTotal(groups, sortedKeys);
  }

  /** Rebuilding an object on a reordering of its keys keeps its sum. */
  lemma RebuildTotal(groups: Entries, ks: seq<string>)
    requires Distinct(KeysOf(groups)) && multiset(ks) == multiset(KeysOf(groups))
    ensures SumValues(Rebuild(ks, groups)) == SumValues(groups)
  {
    SumByPointwise(Rebuild(ks, groups), EntryValue, ks, LookupIn(groups));
    SumByPermutation(ks, KeysOf(groups), LookupIn(groups));
    SumOverKeys(groups);
  }

  // ----- groupTransactions (current period) --------------------------------

  /** Whether a transaction belongs to the current `period`: today; the
      seven days up to `now`; this month; this year; nothing otherwise. */
  function InPeriod(period: string, now: Instant): Transaction -> bool {
    (t: Transaction) =>
      if period == "day" then t.date == now.date
      else if period == "week" then DaysAgo(now, 7) <= Midnight(t.date) <= TimeValue(now)
      else if period == "month" then t.date.month == now.date.month && t.date.year == now.date.year
      else if period == "year" then t.date.year == now.date.year
      else false
  }

  /** The bucket: the hour (always "00:00", a date string being read as
      midnight), the weekday name, the day of the month, or the month name. */
  function PeriodKey(period: string): Transaction -> string {
    (t: Transaction) =>
      if period == "day" then Pad2(0) + ":00"
      else if period == "week" then DayNames[Weekday(t.date)]
      else if period == "month" then NatToString(t.date.day)
      else if period == "year" then MonthNames[t.date.month - 1]
      else "undefined"
  }

  /** `${String(0).padStart(2, '0')}:00` is "00:00". */
  lemma MidnightHourKey()
    ensures Pad2(0) + ":00" == "00:00"
  {
    assert NatToString(0) == "0";
  }

  /** The position a key sorts by: weekday and month names by their place in
      the week and the year, day-of-month keys by their value. The "day"
      period has a single key, so its comparator is never consulted. */
  function PeriodRank(period: string, k: string): int {
    if period == "week" then IndexOf(DayNames, k)
    else if period == "month" then (if AllDigits(k) then ParseDigits(k) else 0)
    else if period == "year" then IndexOf(MonthNames, k)
    else 0
  }

  function RankLe(period: string): (string, string) -> bool {
    (a: string, b: string) => PeriodRank(period, a) <= PeriodRank(period, b)
  }

  lemma RankLePreorder(period: string)
    ensures TotalPreorder(RankLe(period))
  {
  }

  /** The trend chart's groups: the current period's transactions summed per
      bucket, buckets in chronological order. */
  method GroupTransactions(data: seq<Transaction>, period: string, now: Instant) returns (r: Entries)
    ensures Distinct(KeysOf(r))
    ensures forall k :: k in KeysOf(r) <==> k in KeySeq(Filter(data, InPeriod(period, now)), PeriodKey(period))
    ensures forall i :: 0 <= i < |r| ==>
      r[i].1 == SumWhere(Filter(data, InPeriod(period, now)), HasKey(PeriodKey(period), r[i].0))
    ensures SortedBy(KeysOf(r), RankLe(period))
    ensures SumValues(r) == SumWhere(data, InPeriod(period, now))
    ensures period == "day" ==> |r| <= 1
    ensures period !in {"day", "week", "month", "year"} ==> r == []
  {
    var filtered := Filter(data, InPeriod(period, now));
    RankLePreorder(period);
    r := SortedGroups(filtered, PeriodKey(period), RankLe(period));
    if period == "day" {
      MidnightHourKey();
      DedupConstant(KeySeq(filtered, PeriodKey(period)), "00:00");
    }
    if period !in {"day", "week", "month", "year"} {
      FilterNone(data, InPeriod(period, now));
    }
  }

  // ----- groupTransactionsAllTime ------------------------------------------

  /** The analysis key: the stored date string, the week, "YYYY-MM", the
      year, or `undefined` (which becomes the key "undefined"). */
  function AllTimeKey(period: string): Transaction -> string {
    (t: Transaction) =>
      if period == "day" then DateString(t.date)
      else if period == "week" then WeekKeyAsWritten(t.date)
      else if period == "month" then MonthKey(t.date.year, t.date.month)
      else if period == "year" then IntToString(t.date.year)
      else "undefined"
  }

  /** The analysis key with the corrected week key `WeekKey`. */
  function AllTimeKeyCorrected(period: string): Transaction -> string {
    (t: Transaction) => if period == "week" then WeekKey(t.date) else AllTimeKey(period)(t)
  }

  /** The default `sort()` is a total preorder on strings. */
  lemma LexLePreorder()
    ensures TotalPreorder(LexLe)
  {
    forall a, b ensures LexLe(a, b) || LexLe(b, a) {
      LexLeTotal(a, b);
    }
    forall a, b, c | LexLe(a, b) && LexLe(b, c) ensures LexLe(a, c) {
      LexLeTransitive(a, b, c);
    }
  }

  /** The analysis groups over all transactions, keys in code-unit order. */
  method GroupTransactionsAllTime(data: seq<Transaction>, period: string) returns (r: Entries)
    ensures Distinct(KeysOf(r))
    ensures forall k :: k in KeysOf(r) <==> k in KeySeq(data, AllTimeKey(period))
    ensures forall i :: 0 <= i < |r| ==> r[i].1 == SumWhere(data, HasKey(AllTimeKey(period), r[i].0))
    ensures SortedBy(KeysOf(r), LexLe)
    ensures SumValues(r) == Total(data)
  {
    LexLePreorder();
    r := SortedGroups(data, AllTimeKey(period), LexLe);
  }

  /** The analysis groups with the corrected week key. */
  method GroupTransactionsAllTimeCorrected(data: seq<Transaction>, period: string) returns (r: Entries)
    ensures Distinct(KeysOf(r))
    ensures forall k :: k in KeysOf(r) <==> k in KeySeq(data, AllTimeKeyCorrected(period))
    ensures forall i :: 0 <= i < |r| ==> r[i].1 == SumWhere(data, HasKey(AllTimeKeyCorrected(period), r[i].0))
    ensures SortedBy(KeysOf(r), LexLe)
    ensures SumValues(r) == Total(data)
  {
    LexLePreorder();
    r := SortedGroups(data, AllTimeKeyCorrected(period), LexLe);
  }

  /** As written, the "week" group of a transaction of 2024-01-03 also holds
      one of 2024-12-31, although the two lie in different weeks. */
  lemma AllTimeWeekGroupMerges(a: Transaction, b: Transaction)
    requires a.date == Ymd(2024, 1, 3) && b.date == Ymd(2024, 12, 31)
    ensures !InWeekOf(a.date)(b)
    ensures SumWhere([a, b], HasKey(AllTimeKey("week"), AllTimeKey("week")(a))) == a.amount + b.amount
    ensures SumWhere([a, b], InWeekOf(a.date)) == a.amount
  {
    WeekKeyAsWrittenMergesWeeks();
    var k := AllTimeKey("week");
    assert k(a) == WeekKeyAsWritten(a.date) && k(b) == WeekKeyAsWritten(b.date);
    SumWhereOfTwo(a, b, HasKey(k, k(a)));
    SumWhereOfTwo(a, b, InWeekOf(a.date));
  }

  lemma SumWhereOfTwo(a: Transaction, b: Transaction, p: Transaction -> bool)
    ensures SumWhere([a, b], p) == (if p(a) then a.amount else 0.0) + (if p(b) then b.amount else 0.0)
  {
    SumWhereSnoc([], a, p);
    SumWhereSnoc([a], b, p);
    assert [] + [a] == [a] && [a] + [b] == [a, b];
    assert SumWhere([], p) == 0.0;
  }

  /** The "month" group keyed `MonthKey(y, m)` holds exactly that month's total. */
  lemma AllTimeMonthGroup(data: seq<Transaction>, y: int, m: int)
    requires 1 <= m <= 12
    ensures SumWhere(data, HasKey(AllTimeKey("month"), MonthKey(y, m))) == SumWhere(data, InMonth(y, m))
  {
    forall i | 0 <= i < |data|
      ensures HasKey(AllTimeKey("month"), MonthKey(y, m))(data[i]) == InMonth(y, m)(data[i])
    {
      MonthKeyInjective(data[i].date.year, data[i].date.month, y, m);
    }
    SumWhereCongruent(data, HasKey(AllTimeKey("month"), MonthKey(y, m)), InMonth(y, m));
  }

  /** The "year" group keyed `String(y)` holds exactly that year's total. */
  lemma AllTimeYearGroup(data: seq<Transaction>, y: int)
    ensures SumWhere(data, HasKey(AllTimeKey("year"), IntToString(y))) == SumWhere(data, InYear(y))
  {
    forall i | 0 <= i < |data|
      ensures HasKey(AllTimeKey("year"), IntToString(y))(data[i]) == InYear(y)(data[i])
    {
      if IntToString(data[i].date.year) == IntToString(y) {
        IntToStringInjective(data[i].date.year, y);
      }
    }
    SumWhereCongruent(data, HasKey(AllTimeKey("year"), IntToString(y)), InYear(y));
  }

  /** With the corrected key, the "week" group of `d` holds exactly the total
      of `d`'s Monday-to-Sunday week. */
  lemma AllTimeWeekGroup(data: seq<Transaction>, d: Date)
    ensures SumWhere(data, HasKey(AllTimeKeyCorrected("week"), WeekKey(d))) == SumWhere(data, InWeekOf(d))
  {
    forall i | 0 <= i < |data|
      ensures HasKey(AllTimeKeyCorrected("week"), WeekKey(d))(data[i]) == InWeekOf(d)(data[i])
    {
      WeekKeyIdentifiesWeek(data[i].date, d);
    }
    SumWhereCongruent(data, HasKey(AllTimeKeyCorrected("week"), WeekKey(d)), InWeekOf(d));
  }

  /** The "day" group keyed by a date's string holds exactly that day's total
      (dates with four-digit years). */
  lemma AllTimeDayGroup(data: seq<Transaction>, d: Date)
    requires 0 <= d.year <= 9999
    requires forall i :: 0 <= i < |data| ==> 0 <= data[i].date.year <= 9999
    ensures SumWhere(data, HasKey(AllTimeKey("day"), DateString(d))) == SumWhere(data, OnDay(d))
  {
    forall i | 0 <= i < |data|
      ensures HasKey(AllTimeKey("day"), DateString(d))(data[i]) == OnDay(d)(data[i])
    {
      if DateString(data[i].date) == DateString(d) {
        DateStringInjective(data[i].date, d);
      }
    }
    SumWhereCongruent(data, HasKey(AllTimeKey("day"), DateString(d)), OnDay(d));
  }

  // ----- calculateStats ----------------------------------------------------

  datatype Stats = Stats(
    count: nat,
    total: real,
    last7Total: real,
    last30Total: real,
    avgTransaction: real,
    categoryTotals: Entries,
    monthlyTotals: seq<real>,
    topCategory: string)

  function Category(t: Transaction): string { t.category }

  function RealValue(x: real): real { x }

  /** The twelve month totals of year `y`, January first. */
  function MonthSums(data: seq<Transaction>, y: int): (r: seq<real>)
    ensures |r| == 12
  {
    seq(12, m requires 0 <= m < 12 => SumWhere(data, InMonth(y, m + 1)))
  }

  /** The totals per calendar month, whatever the year. */
  function MonthColumn(ts: seq<Transaction>): (r: seq<real>)
    ensures |r| == 12
  {
    seq(12, m requires 0 <= m < 12 => SumWhere(ts, MonthIs(m + 1)))
  }

  /** One more transaction adds its amount to its own month only. */
  lemma MonthColumnSnoc(ts: seq<Transaction>, t: Transaction)
    ensures var c := MonthColumn(ts); var j := t.date.month - 1;
      MonthColumn(ts + [t]) == c[j := c[j] + t.amount]
  {
    forall m | 0 <= m < 12 {
      SumWhereSnoc(ts, t, MonthIs(m + 1));
    }
  }

  /** The month column adds up to the total: every transaction lands in
      exactly one month. */
  lemma {:induction false} MonthColumnTotal(ts: seq<Transaction>)
    ensures SumBy(MonthColumn(ts), RealValue) == Total(ts)
    decreases |ts|
  {
    if ts == [] {
      SumByZero(MonthColumn(ts), RealValue);
    } else {
      var p, t := ts[..|ts| - 1], ts[|ts| - 1];
      assert ts == p + [t];
      MonthColumnTotal(p);
      MonthColumnSnoc(p, t);
      var c, j := MonthColumn(p), t.date.month - 1;
      var x := c[j] + t.amount;
      assert MonthColumn(ts) == c[j := x];
      SumByUpdate(c, j, x, RealValue);
      assert RealValue(x) == x && RealValue(c[j]) == c[j];
      assert Total(ts) == Total(p) + t.amount;
    }
  }

  /** The year's month totals are the month column of that year's transactions. */
  lemma MonthSumsByColumn(data: seq<Transaction>, y: int)
    ensures MonthSums(data, y) == MonthColumn(Filter(data, InYear(y)))
  {
    forall m | 0 <= m < 12 {
      SumWhereOfFilter(data, InYear(y), MonthIs(m + 1), InMonth(y, m + 1));
    }
  }

  /** The twelve month totals add up to the year's total. */
  lemma MonthSumsTotal(data: seq<Transaction>, y: int)
    ensures SumBy(MonthSums(data, y), RealValue) == SumWhere(data, InYear(y))
  {
    MonthSumsByColumn(data, y);
    MonthColumnTotal(Filter(data, InYear(y)));
  }

  /** `Array(12).fill(0)` filled by the `forEach` over this year's transactions. */
  method MonthlyTotals(data: seq<Transaction>, year: int) returns (totals: seq<real>)
    ensures totals == MonthSums(data, year)
  {
    var inYear := Filter(data, InYear(year));
    var a := new real[12](_ => 0.0);
    assert a[..] == MonthColumn([]) by {
      forall m | 0 <= m < 12 {
        SumWhereNone([], MonthIs(m + 1));
      }
    }
    var i := 0;
    while i < |inYear|
      invariant 0 <= i <= |inYear|
      invariant a[..] == MonthColumn(inYear[..i])
    {
      var t := inYear[i];
      TakeSnoc(inYear, i);
      MonthColumnSnoc(inYear[..i], t);
      a[t.date.month - 1] := a[t.date.month - 1] + t.amount;
      i := i + 1;
    }
    assert inYear[..i] == inYear;
    MonthSumsByColumn(data, year);
    totals := a[..];
  }

  /** `a` may precede `b` in `sort((a, b) => b[1] - a[1])`: larger totals first. */
  function ByValueDescending(a: (string, real), b: (string, real)): bool {
    b.1 <= a.1
  }

  lemma ByValueDescendingPreorder()
    ensures TotalPreorder(ByValueDescending)
  {
  }

  /** The head of the entries sorted by descending total. */
  function TopEntry(e: Entries): (string, real)
    requires e != []
  {
    Sort(e, ByValueDescending)[0]
  }

  /** `...[0]?.[0] || "N/A"`. */
  function TopCategory(e: Entries): string {
    if e == [] || TopEntry(e).0 == "" then "N/A" else TopEntry(e).0
  }

  /** The position of the first entry with the largest total. */
  function FirstMaxIndex(e: Entries): (k: int)
    requires e != []
    ensures 0 <= k < |e|
    ensures forall j :: 0 <= j < |e| ==> e[j].1 <= e[k].1
    ensures forall j :: 0 <= j < k ==> e[j].1 < e[k].1
  {
    if |e| == 1 then 0
    else
      var k := FirstMaxIndex(e[..|e| - 1]);
      if e[k].1 < e[|e| - 1].1 then |e| - 1 else k
  }

  /** The sort is stable, so the top entry is the earliest-inserted of the
      entries with the largest total. */
  lemma {:induction false} TopEntryIsFirstMax(e: Entries)
    requires e != []
    ensures TopEntry(e) == e[FirstMaxIndex(e)]
    decreases |e|
  {
    if |e| > 1 {
      var p, x := e[..|e| - 1], e[|e| - 1];
      TopEntryIsFirstMax(p);
      var s := Sort(p, ByValueDescending);
      var k := FirstMaxIndex(p);
      assert TopEntry(e) == Insert(s, x, ByValueDescending)[0];
      InsertHead(s, x, ByValueDescending);
      if p[k].1 < x.1 {
        forall i | 0 <= i < |s| ensures !ByValueDescending(s[i], x) {
          assert s[i] in multiset(p);
          var j :| 0 <= j < |p| && p[j] == s[i];
        }
        assert FirstMaxIndex(e) == |e| - 1;
        assert TopEntry(e) == x;
      } else {
        assert p[k] in multiset(s);
        var i :| 0 <= i < |s| && s[i] == p[k];
        assert ByValueDescending(s[i], x);
        assert FirstMaxIndex(e) == k;
        assert TopEntry(e) == s[0] == p[k];
      }
    }
  }

  /** The summary figures. */
  method CalculateStats(data: seq<Transaction>, now: Instant) returns (s: Stats)
    ensures s.count == |data| && s.total == Total(data)
    ensures s.last7Total == SumWhere(data, Since(now, 7))
    ensures s.last30Total == SumWhere(data, Since(now, 30))
    ensures s.avgTransaction == if |data| == 0 then 0.0 else Total(data) / (|data| as real)
    ensures KeysOf(s.categoryTotals) == Dedup(KeySeq(data, Category))
    ensures forall j :: 0 <= j < |s.categoryTotals| ==>
      s.categoryTotals[j].1 == SumWhere(data, HasKey(Category, s.categoryTotals[j].0))
    ensures SumValues(s.categoryTotals) == Total(data)
    ensures s.monthlyTotals == MonthSums(data, now.date.year)
    ensures s.topCategory == TopCategory(s.categoryTotals)
  {
    var total := Total(data);
    var last7 := SumWhere(data, Since(now, 7));
    var last30 := SumWhere(data, Since(now, 30));
    var categoryTotals := GroupBy(data, Category);
    var monthlyTotals := MonthlyTotals(data, now.date.year);
    var avg := if |data| == 0 then 0.0 else total / (|data| as real);
    s := Stats(|data|, total, last7, last30, avg, categoryTotals, monthlyTotals, TopCategory(categoryTotals));
  }

  /** With non-negative amounts the trailing windows nest:
      0 <= last 7 days <= last 30 days <= all time. */
  lemma WindowsNest(data: seq<Transaction>, now: Instant)
    requires NonNegative(data)
    ensures 0.0 <= SumWhere(data, Since(now, 7)) <= SumWhere(data, Since(now, 30)) <= Total(data)
  {
    forall i | 0 <= i < |data| && Since(now, 7)(data[i]) ensures Since(now, 30)(data[i]) {
      OnOrAfterDaysAgoWidens(data[i].date, now, 7, 30);
    }
    SumWhereMonotone(data, Since(now, 7), Since(now, 30));
    SumWhereBounds(data, Since(now, 7));
    SumWhereBounds(data, Since(now, 30));
  }
}
