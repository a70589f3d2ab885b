# FinTrack core, modelled in Dafny

A model of the logic underneath a browser-based personal finance tracker.
The tracker stores transactions (description, amount in US dollars,
category, calendar date, creation and update timestamps), shows them in a
searchable, sortable table, converts amounts into a selected display
currency, keeps per-category budgets whose sum is the spending cap, and
draws dashboard and analysis charts from aggregates of the records.

The model covers:

- **Aggregation** (`stats.dfy`, on `calendar.dfy`, `ledger.dfy` and `seqs.dfy`):
  - the seven-month spending window;
  - current-period and all-time grouping;
  - ISO 8601 week numbers (section 4.1.4 of ISO 8601:2004);
  - the summary statistics.
- **Form validation** and the import structure check (`validators.dfy`, `import_export.dfy`).
- **Currency conversion and symbols** (`currency.dfy`).
- **The records table** (`ui.dfy`, `search.dfy`): the sorted copy, HTML escaping, and the search-pattern guard.
- **The page script's state rules** (`app.dfy`):
  - category colours;
  - the chart spline;
  - the carousel;
  - the budget/cap reconciliation;
  - adding, editing and deleting records;
  - the cap, budget and rate inputs;
  - clearing and importing.

Conventions:

- **Dates** are valid proleptic-Gregorian `(year, month, day)` triples. The
  local time zone is taken to be UTC, so a stored "YYYY-MM-DD" string read
  with `new Date(...)` is midnight of that day, and the local getters return
  its fields.
- **"Now"** (`new Date()`) is an explicit `Instant` parameter: a date plus
  the milliseconds into that day.
- **Amounts** are reals.
- **Plain JavaScript objects** used as dictionaries are sequences of
  `(key, value)` pairs in insertion order.
- **Foreign behaviour** enters as function parameters: locale formatting,
  `localeCompare`, the regular-expression engine, and the decoding of
  imported values.

Browser input arrives as parameters. A `parseFloat` that yields `NaN` is
`None`. Record ids and ISO timestamps are passed in.

Page state that the handlers update in place is a class with `modifies`
clauses: `App.AppState` (records, cap, budgets, currency) and
`App.Carousel`. The two loops of the page script are methods with loop
invariants: `CatColor` and `CardinalSpline`. The pure modules are
functions and lemmas.

## Model

| member | source | states |
|---|---|---|
| Calendar.IsoWeekday | scripts/stats.js:116 | `getDay() \|\| 7` is in 1..7 and agrees with the weekday modulo 7 |
| Calendar.IsoWeek | scripts/stats.js:135-141 | the ISO 8601 week number that `getISOWeek` computes on the proleptic calendar is always from 1 to 53 |
| Calendar.UtcYear | scripts/stats.js:136-138 | `Date.UTC` keeps a year unless it is in 0..99 |
| Calendar.UtcDate | scripts/stats.js:136 | `Date.UTC(getFullYear(), getMonth(), getDate())` gives the date back unless its year is in 0..99 |
| Calendar.GetIsoWeek | scripts/stats.js:135-141 | `getISOWeek` as written, with `Date.UTC`'s reading of years 0..99 as 1900..1999, equals the ISO week whenever neither the date's year nor its Thursday's year is in 0..99 |
| Calendar.GetIsoWeekTwoDigitYear | scripts/stats.js:136-139 | for 0050-12-25, ISO week 51 of the year 50, `getISOWeek` yields 52, the week of 1950-12-25 |
| Calendar.IsoWeekByThursday | scripts/stats.js:137-140 | the week number depends only on the Thursday of the date's week; week 1 is the week whose Thursday is among the year's first seven days |
| Calendar.IsoWeekOfMonday | scripts/stats.js:116-119 | moving to the week's Monday keeps the Thursday and hence the ISO week |
| Calendar.IsoWeekIdentifiesWeek | scripts/stats.js:135-141 | two dates share ISO week-numbering year and ISO week exactly when they share their Monday |
| Calendar.AddDays | scripts/stats.js:48 | `setDate(getDate() + k)` moves the date by exactly k day numbers |
| Calendar.OnOrAfterDaysAgoWidens | scripts/stats.js:149-159 | a transaction inside the 7-day cut-off is inside the 30-day cut-off |
| Calendar.MonthStart | scripts/stats.js:11 | `new Date(y, m, 1)` lands on the month m months after January of y (with years 0..99 read as 1900..1999), month in 1..12 |
| Stats.MonthlySpendLast6Months | scripts/stats.js:5-29 | seven entries, oldest first; entry k is the month 6-k months back, with its label, its "YYYY-MM" key and the sum of that month's amounts |
| Stats.MonthsBack | scripts/stats.js:10-13 | the i-th month back is i months before the current month in year*12+month arithmetic, so the window rolls over year ends |
| Stats.LastMonthIsCurrent | scripts/stats.js:10-13 | the last entry is the current month |
| Stats.MonthKeysDistinct | scripts/stats.js:14 | the seven month keys are pairwise different |
| Stats.MonthKeyInjective | scripts/stats.js:14 | "YYYY-MM" keys with a zero-padded month are equal exactly when year and month are |
| Stats.GroupTransactions | scripts/stats.js:35-101 | distinct keys, exactly the keys of the current period's transactions, each holding its bucket's sum, ordered by weekday/day/month position, summing to the period's total; one bucket at most for "day"; nothing for an unknown period |
| Stats.GroupTransactionsAllTime | scripts/stats.js:106-133 | with the keys as written (the "week" key is the Monday's calendar year and `getISOWeek` of the Monday): distinct keys, exactly the keys of all transactions, each holding its bucket's sum, in code-unit order, summing to the total of all amounts |
| Stats.GroupTransactionsAllTimeCorrected | scripts/stats.js:106-133 | the same guarantees with the corrected "week" key |
| Stats.AllTimeWeekGroupMerges | scripts/stats.js:115-119 | as written, the "week" group of a 2024-01-03 transaction also receives a 2024-12-31 one, which is in another week: it holds both amounts while that week's total is the first amount alone |
| Stats.AllTimeMonthGroup | scripts/stats.js:120-121 | the "month" group keyed "YYYY-MM" holds exactly that month's total |
| Stats.AllTimeYearGroup | scripts/stats.js:122-123 | the "year" group keyed by the year holds exactly that year's total |
| Stats.AllTimeDayGroup | scripts/stats.js:113-114 | the "day" group keyed by a date string holds exactly that day's total |
| Stats.AllTimeWeekGroup | scripts/stats.js:115-119 | with the corrected week key (`GroupTransactionsAllTimeCorrected`), a week's group holds exactly that Monday-to-Sunday week's total |
| Stats.WeekKeyAsWrittenMergesWeeks | scripts/stats.js:116-119 | the key as written files 2024-01-03 and 2024-12-31, which are in different weeks, under the same key |
| Stats.WeekKeyIdentifiesWeek | scripts/stats.js:116-119 | the corrected key (ISO week-numbering year) is equal for two dates exactly when they share their week |
| Stats.CalculateStats | scripts/stats.js:146-189 | count and total; 7- and 30-day trailing sums; average (0 when empty); per-category totals with first-seen key order summing to the total; twelve current-year month totals; top category |
| Stats.MonthlyTotals | scripts/stats.js:166-172 | the filled 12-slot array equals the per-month sums of the current year |
| Stats.MonthSumsTotal | scripts/stats.js:166-172 | the twelve month totals add up to the year's total |
| Stats.TopEntryIsFirstMax | scripts/stats.js:174-175 | the head of the descending sort is the first-inserted category of largest total |
| Stats.FirstMaxIndex | scripts/stats.js:174-175 | that entry's total is at least every other total and larger than every total before it |
| Stats.WindowsNest | scripts/stats.js:147-159 | with non-negative amounts, 0 <= last-7 total <= last-30 total <= total |
| Ledger.SumWhereBounds | scripts/stats.js:151-159 | a filtered sum of non-negative amounts lies between 0 and the total |
| Ledger.FilterMembers | scripts/stats.js:39-62 | `filter` keeps exactly the elements satisfying the predicate |
| Ledger.AddToSum | scripts/stats.js:80 | `groups[k] = (groups[k] \|\| 0) + a` adds a to the object's sum |
| Ledger.GroupsOfStep | scripts/stats.js:162-164 | one more accumulation step keeps the groups equal to the per-key sums in first-seen key order |
| Ledger.DateStringInjective | scripts/stats.js:114 | different days have different "YYYY-MM-DD" strings |
| Seqs.SortSorted | scripts/ui.js:7 | the stable insertion sort returns an ordered permutation of its input |
| Seqs.SumByPermutation | scripts/stats.js:129-132 | reordering the keys does not change the sum |
| Validators.DescriptionPatternIsTrimmed | scripts/validators.js:11-12 | the description pattern accepts exactly the non-empty one-line strings that `trim` leaves unchanged |
| Validators.WordRepeatedIsDuplicate | scripts/validators.js:2 | any word, then white space, then the same word in any letter case, is a duplicate |
| Validators.DuplicateWordExample | scripts/validators.js:2 | illustration: "the The" has a repeated word, case-insensitively |
| Validators.DistinctWordsExample | scripts/validators.js:2 | illustration: "the cat" has none |
| Validators.DuplicateNeedsSpace | scripts/validators.js:2 | a repeated word needs white space between the two copies |
| Validators.AmountExamples | scripts/validators.js:23 | illustration: "01" and "1.234" are rejected; "12.5" and "0" are accepted |
| Validators.WholeAmounts | scripts/validators.js:23-24 | every whole number's `String` is accepted, and an accepted string without '.' is the canonical decimal of its value |
| Validators.AmountWithCents | scripts/validators.js:23 | a whole part followed by '.' and two digits is accepted |
| Validators.CategoryPatternIsGrammar | scripts/validators.js:32 | the category pattern accepts exactly runs of ASCII letters joined by single spaces or hyphens |
| Validators.CategoryExamples | scripts/validators.js:32 | illustration: "Self-care" is accepted; a doubled separator, a leading space and a digit are rejected |
| Validators.TwoDigitRanges | scripts/validators.js:41 | the month alternation accepts exactly 01..12 and the day alternation exactly 01..31 |
| Validators.DatePatternByValue | scripts/validators.js:41 | the date pattern is 4 digits, '-', a month 1..12, '-', a day 1..31 |
| Validators.ImpossibleDayAccepted | scripts/validators.js:41 | "2024-02-31" is accepted though February has no 31st |
| Validators.DateStringParsed | scripts/validators.js:41 | every stored date with a four-digit year is accepted and reads back as itself |
| Validators.ParsedDateString | scripts/validators.js:41 | accepted text that names a real day is that day's stored string |
| Validators.ValidateAll | scripts/validators.js:4-49 | no error exactly when all four checks pass; each field's message is the one its check selects, and an error is reported exactly when some message is set |
| ImportExport.ValidateImportSpec | scripts/importExport.js:6-17 | accepted exactly when the data is a non-empty array and every element has string id, description, category and date, a non-negative number amount and a 4-2-2 digit date |
| ImportExport.EverySpec | scripts/importExport.js:8-16 | `every` returns true exactly when each element passes |
| ImportExport.NegativeAmountRejects | scripts/importExport.js:12 | a negative amount anywhere rejects the whole import |
| ImportExport.DateShapeIsWeaker | scripts/importExport.js:15 | "2024-13-99" passes the import's date check but not the form's; every form-valid date passes the import's |
| ImportExport.ExportImports | scripts/importExport.js:6-17 | a non-empty export of non-negative records with four-digit years is accepted on import |
| Currency.Rate | scripts/currency.js:18 | the rate in use is never 0: the stored rate when present and non-zero, else 1 |
| Currency.ConvertRoundTrip | scripts/currency.js:17-28 | `toBase(convert(x)) == x` and `convert(toBase(x)) == x` for every rate table |
| Currency.IdentityAtRateOne | scripts/currency.js:18-27 | at rate 1, or with a missing or zero rate, both conversions are the identity |
| Currency.ConvertLinear | scripts/currency.js:19-27 | both conversions are additive |
| Currency.ConvertMonotone | scripts/currency.js:19-27 | with a positive rate both conversions keep order and sign |
| Currency.Symbol | scripts/currency.js:35 | the metadata symbol for a known code, the code itself otherwise |
| Currency.FormatAmountShape | scripts/currency.js:33-37 | the text is the symbol, one space, and the locale rendering of the converted amount |
| Currency.KnownSymbolsDistinct | scripts/currency.js:6-12 | the four known currencies have different symbols |
| Ui.SortDataSpec | scripts/ui.js:6-15 | the result is a permutation of the input, ordered by the field's comparator, non-decreasing for "asc" and non-increasing otherwise |
| Ui.NotAfterPreorder | scripts/ui.js:10-13 | with a consistent string comparator, the directed comparison is a total preorder |
| Ui.AmountAscending | scripts/ui.js:12-13 | sorted by amount ascending, amounts never decrease |
| Search.CompileRegexSpec | scripts/search.js:7-14 | a pattern exists exactly when the input has a non-white-space character and its trim compiles; it is the trimmed input with flag "i" |
| Search.EscapeHtmlSafe | scripts/search.js:28-34 | the escaped text contains no '<', '>' or '"' |
| Search.EscapeHtmlByChar | scripts/search.js:28-34 | the chained replacements equal replacing each character by its entity, because '&' goes first |
| Search.UnescapeEscape | scripts/search.js:28-34 | escaping loses nothing: reading the entities back gives the original text |
| Search.EscapeHtmlIdentity | scripts/search.js:28-34 | text without '&', '<', '>' and '"' is unchanged |
| Search.HighlightWithoutPattern | scripts/search.js:20-21 | with no pattern the cell is exactly the escaped text |
| App.ToInt32 | scripts/app.js:118 | `x & 0xffffffff` is in the signed 32-bit range and congruent to x modulo 2^32 |
| App.HashIsPolyHash | scripts/app.js:117-118 | the loop's hash is the base-31 polynomial hash of the code units reduced to signed 32 bits |
| App.ColorIndex | scripts/app.js:119 | `Math.abs(hash) % PALETTE.length` is an index into the palette |
| App.CatColor | scripts/app.js:116-120 | the loop returns the palette entry at the category's index, so the colour is one of the ten and depends only on the text |
| App.FoodColor | scripts/app.js:116-120 | illustration: "Food" gets the third palette colour |
| App.CardinalSpline | scripts/app.js:324-344 | no path for fewer than two points; otherwise the path starts at the first point and has n-1 segments, segment i being the cardinal segment from point i to point i+1, the last ending at the last point |
| App.CurveToVector | scripts/app.js:335-338 | the four control-point coordinates the loop computes are, as vectors, p1 + t/6·(p2 − p0) and p2 − t/6·(p3 − p1) |
| App.SplineSmooth | scripts/app.js:330-338 | at every interior point the incoming and outgoing control points are mirror images |
| App.SplineEnds | scripts/app.js:330-338 | the missing neighbours are clamped: p0 is the first point on the first segment and p3 is p2 on the last |
| App.SplineTensionZero | scripts/app.js:334-337 | at tension 0 each segment's control points are its end points |
| App.Carousel.Prev | scripts/app.js:348-351 | the index goes down by one unless at 0, staying within 0..6 |
| App.Carousel.Next | scripts/app.js:352-355 | the index goes up by one unless at 6, staying within 0..6 |
| App.AppState.EnsureBudgetSync | scripts/app.js:63-68 | afterwards the cap is within 0.01 of the budget sum; it is unchanged when it already was; the budgets are untouched |
| App.AppState.Delete | scripts/app.js:575-580 | for an empty id (`if (delId)` fails) the records stay as they are; otherwise they become the filter of those with another id |
| App.DeleteSpec | scripts/app.js:577 | deletion keeps exactly the records with other ids, in order, and changes nothing when no record has the id |
| App.DeleteUnique | scripts/app.js:577 | with unique ids, deleting a record's id removes that one record |
| App.IndexOfId | scripts/app.js:594 | `findIndex` is the first position with the id, or -1 when there is none |
| App.AppState.Edit | scripts/app.js:593-600 | the records become the edit of the first record with the id |
| App.EditSpec | scripts/app.js:594-600 | the edit keeps the length and every id and creation time, replaces only the found record's fields, and changes nothing when the id is absent |
| App.AppState.Add | scripts/app.js:604-611 | exactly one record is appended |
| App.AddFresh | scripts/app.js:605-610 | appending a record with a new id keeps ids unique and the new record is found at the end |
| App.AppState.Submit | scripts/app.js:583-616 | the trimmed form is validated; on an error nothing changes; otherwise the record is edited when an edit is pending, else appended |
| App.NumberValueWhole | scripts/app.js:596 | `Number` of a whole amount's text is that amount |
| App.NumberValueExample | scripts/app.js:596 | illustration: `Number("12.5")` is 12.5 |
| App.AppState.SetCap | scripts/app.js:663-669 | an unreadable or non-positive input sets the cap to 0, any other to its base-currency value |
| App.AppState.SetBudget | scripts/app.js:716-729 | a readable non-negative input sets that category's budget, leaves the other categories and re-syncs the cap: the new cap is the new budget sum when the old cap is more than one cent away from it, and the old cap otherwise; anything else changes nothing |
| App.LookupPut | scripts/app.js:722 | after `obj[k] = v`, k reads v and every other key reads as before |
| App.AppState.SetRate | scripts/app.js:752-764 | only a readable positive rate is stored |
| App.AppState.SelectCurrency | scripts/app.js:650-652 | only the selected code changes |
| App.AppState.ClearData | scripts/app.js:731-738 | no records and a zero cap; the budgets remain |
| App.AppState.Import | scripts/app.js:693-714 | the records are replaced exactly when the import check accepts the parsed value, by one record per element carrying that element's id, description, amount and category; otherwise nothing changes |
| App.AppState.constructor | scripts/state.js:1-36 | the initial state: no records, cap 0, the four fallback rates with USD selected, ten zero budgets |

## Left out

- **Rendering and browser plumbing.** DOM rendering, HTML and SVG text,
  event wiring, `confirm`, navigation, theming and chart drawing are
  outside the model. Only the state the handlers change and the values
  the helpers compute are modelled.
- **Persistence.** `localStorage` reads and writes (scripts/storage.js)
  are not modelled. Nor is the `loadAll` at start-up: the model starts
  from the initial state.
- **Randomness and time.** `crypto.randomUUID`, `new Date().toISOString()`
  and `setTimeout` are not modelled. Ids and timestamps are parameters.
  The two `toISOString` calls of the add branch are one parameter.
  Likewise the three `new Date()` calls of `calculateStats`
  (scripts/stats.js:149, 155, 166) are one `now` parameter: the model does
  not capture the clock moving (say, past midnight) between them.
- **Floating point.**
  - Amounts, rates and spline coordinates are reals, with no IEEE
    rounding and no `NaN`.
  - The one-cent tolerance of `ensureBudgetSync` is exact.
  - `Number(...)` is modelled only on text the amount pattern accepts.
  - `parseFloat` is modelled as its outcome: a value or `NaN`.
- **Locale formatting and comparison.**
  - `toLocaleString` and `toFixed` are parameters.
  - `localeCompare` with base sensitivity is an abstract comparator,
    assumed consistent (swapping arguments flips the sign; "not after"
    is transitive).
- **Time zones.** The local time zone is assumed to be UTC. Daylight
  saving and other offsets are not modelled.
- **The "day" period's hour buckets.** Under the UTC assumption they are
  always "00:00".
- **Text encoding.**
  - Strings are sequences of Unicode scalar values, not UTF-16 code units.
  - `catColor`'s `for..of` iterates code points. The first code unit of
    each is computed explicitly.
- **The regular-expression engine.**
  - Compilation and the `<mark>` replacement of `highlight` are
    parameters.
  - The replacement is built without the `g` flag, so only the first
    match would be marked. The model does not look inside it.
- **Prototype lookups.** Reads of `CURRENCY_META`, `rates` and budget
  objects are modelled as own-property lookups. Inherited names such as
  "constructor" are not modelled.
- Stats.CalculateStats: the per-category totals are stated as
  own-property sums. The accumulator `(categoryTotals[t.category] || 0) +
  t.amount` (scripts/stats.js:163) reads the inherited member for a name
  that `Object.prototype` defines and that the category pattern accepts
  ("constructor", "toString", "valueOf", "hasOwnProperty", "isPrototypeOf",
  "propertyIsEnumerable", "toLocaleString"). For such a
  name the program stores a string such as
  "function Object() { [native code] }12.5", which then reaches
  `topCategory`'s comparison. The model does not describe that value.
- **Key enumeration order.** Plain objects are sequences in insertion
  order. JavaScript's rule that integer-like keys enumerate first is not
  modelled. The sums do not depend on that order (`Seqs.SumByPermutation`).
  The top category does: among equal totals `topCategory` keeps the one
  enumerated first, so a category named "1" wins over an earlier-inserted
  one in the program, while `Stats.TopEntryIsFirstMax` picks the first in
  insertion order (scripts/stats.js:174-175).
- **App.AppState.Submit: the record's date.** The stored `date` is the
  `Date` passed in. When the accepted text names a real day, the
  precondition makes it that day. The form accepts impossible days such
  as "2024-02-31", which this model's `Date` cannot hold; for those the
  stored day is unconstrained.
- **App.AppState.Import: the records.** The stored records are the
  images of the parsed elements under a `decode` parameter. Its
  precondition makes each stored record carry the element's own id,
  description, amount and category (`DecodesFields`). The date and the
  time stamps are not tied to the element's text. Imported values that
  no `Transaction` can represent (an impossible day, a non-finite number)
  are outside the model.
- **App.CardinalSpline: the path text.** The result is a start point
  plus Bézier segments, not the SVG path string. `close` is unused in
  the source.
- **Sort stability.** Ties under `sortData` are not stated. The
  top-category rule does use stability.
- **The `Date` constructor.** The reading of years 0..99 as 1900..1999
  is modelled for `new Date(y, m, 1)` (`Calendar.MonthStart`) and for
  `Date.UTC` inside `getISOWeek` (`Calendar.GetIsoWeek`). Out-of-range
  and invalid dates are not.

## Findings

| source | as written | input that shows it | evidently intended | confidence | as-written member | corrected member |
|---|---|---|---|---|---|---|
| scripts/stats.js:116-119 | the all-time "week" key is the calendar year of the week's Monday followed by the ISO week of that Monday | 2024-01-03 (Monday 2024-01-01, ISO week 1 of 2024) and 2024-12-31 (Monday 2024-12-30, ISO week 1 of 2025) both get "2024-W01", so two different weeks are summed into one bucket | the ISO week-numbering year (the Thursday's year) with the ISO week, so that keys and weeks correspond one to one | high; derived by proof, not executed | Stats.GroupTransactionsAllTime, Stats.WeekKeyAsWrittenMergesWeeks, Stats.AllTimeWeekGroupMerges | Stats.GroupTransactionsAllTimeCorrected, Stats.WeekKeyIdentifiesWeek, Stats.AllTimeWeekGroup |
