# klakie-next billing core in Dafny

klakie-next reads a Clockify detailed report and shows it to a freelancer in
several forms:

- the time worked, grouped by day and by description;
- the total time as `hh:mm:ss`;
- the pay earned, with a flat tax withheld;
- an invoice with one row per day.

This project models the logic behind those views and proves properties of it:

- **Entries.** Total hours of a list of time entries. Grouping of entries into
  days (by the calendar date of their start) and, within a day, into description
  groups, with per-day and per-group totals and group ids `desc_idx`.
- **OrderedMap.** The plain JavaScript object the grouping fills with
  "initialise the key, then `push`" and reads back with `Object.entries`. It is
  modelled as an insertion-ordered association list of buckets.
- **Duration** and **LegacyDuration.** Scaling an amount in hours, minutes,
  seconds or milliseconds to seconds. Splitting it by flooring into hours,
  minutes and seconds. Printing it as `hh:mm:ss`. Also the older seconds-only
  copy of the formatter.
- **Earnings** and **LegacyEarnings.** Gross pay, tax withheld (2% by default)
  and net pay. Also the older variant that takes seconds and returns no gross.
- **InvoiceTemplate.** The values the invoice template derives:
  - the period code (`aug2021a`);
  - the watermark;
  - the days sorted ascending by their date string;
  - each row's columns (date, truncated description, week, QTY, DUE);
  - the summary rows.
- **Dashboard.** The dashboard page's state and figures:
  - the weekly range, as a class with `start`/`end` fields;
  - one-week navigation forward and back;
  - the period selector;
  - the report figures: total time, earnings and tax withheld;
  - each day's net-pay badge.
- **Text.** String helpers the above rely on: decimal rendering of integers,
  `padStart`, ASCII lower-casing, `split`/`join`, and JavaScript's `<` on strings.

Conventions of the model:

- Instants are integer milliseconds since the epoch.
- Hours, seconds and money are exact `real`s.
- An entry's missing or empty `end` is `None`.
- The calendar date of an instant, the ISO string of a date, the week number
  and the current instant all come from the dayjs library. They enter as
  parameters: `dateOf`, `stamp`, `weekOf`, `today` and `now`.

The imperative parts keep their form:

- `getDailyTimeEntries` builds its dictionaries with `forEach` loops. It is
  modelled by the methods `Entries.GetDailyTimeEntries`, `Entries.BuildDay` and
  `OrderedMap.PushItem`. Each is proved equal to a specification function, which
  the lemmas are about: `GetDailyTimeEntries` to `Entries.DailyEntries`,
  `BuildDay` to `Entries.MakeDay`, and `PushItem` to `OrderedMap.Push`.
- The dashboard's `range` state is the class `Dashboard.DashboardState`, whose
  methods shift its fields.

## Model

| member | source | states |
|---|---|---|
| Entries.TotalHoursIsElapsedOfEnded | lib/helpers/entries-helper.ts:6-16 | The total is the sum, over the entries that have an end, of (end − start) in hours. Entries without an end add nothing and the empty list gives 0. |
| Entries.TotalHoursAppend | lib/helpers/entries-helper.ts:6-16 | The total of a concatenation is the sum of the totals of its parts. |
| Entries.EntryHours | lib/helpers/entries-helper.ts:8-13 | An entry without an end adds nothing. Otherwise its hours times 3 600 000 are the milliseconds from start to end (`diff` in hours, not rounded). |
| Entries.TotalHours | lib/helpers/entries-helper.ts:6-16 | Entries none of which has an end total 0. When no ended entry ends before it starts, the total is non-negative. |
| OrderedMap.PushItem | lib/helpers/entries-helper.ts:37-41 | Initialise-then-push. It appends the value to the bucket of an existing key, or adds a new bucket at the end. This equals the functional `Push`. |
| OrderedMap.IndexOf | lib/helpers/entries-helper.ts:38 | The key lookup finds the first bucket with that key, or reports that no bucket has it. |
| OrderedMap.GroupByKeys | lib/helpers/entries-helper.ts:38-45 | The dictionary's keys are the input keys, without repeats, in order of first occurrence. |
| OrderedMap.DistinctProperties | lib/helpers/entries-helper.ts:38-45 | The key list has no duplicates, holds exactly the input keys, and is no longer than the input. |
| OrderedMap.DistinctFirstOccurrenceOrder | lib/helpers/entries-helper.ts:38-45 | A key listed earlier was first seen earlier in the input. |
| OrderedMap.GroupByItems | lib/helpers/entries-helper.ts:38-41 | Each bucket holds exactly the inputs with its key, in input order. |
| OrderedMap.GroupByPermutation | lib/helpers/entries-helper.ts:38-41 | The buckets together hold every input exactly as often as it occurs. |
| OrderedMap.GroupBySize | lib/helpers/entries-helper.ts:38-41 | Every bucket is non-empty. There are at most as many buckets as inputs, and at least one for a non-empty input. |
| OrderedMap.GroupByKeysOnlyDependOnKeys | lib/helpers/entries-helper.ts:25-42 | The bucket keys depend on the inputs only through the inputs' keys. |
| OrderedMap.SelectHasKey | lib/helpers/entries-helper.ts:38-41 | Everything selected under a key has that key. |
| OrderedMap.SelectEmpty | lib/helpers/entries-helper.ts:38-41 | A key that no input has selects nothing. |
| OrderedMap.PushAddsOne | lib/helpers/entries-helper.ts:41 | One push adds exactly one copy of the value to the dictionary's contents. |
| Entries.BuildDay | lib/helpers/entries-helper.ts:46-81 | The loop over a day's entries builds exactly the specified day: its description groups, its totals and its group ids. |
| Entries.MakeDay | lib/helpers/entries-helper.ts:46-81 | A day has no more description groups than entries, and at least one when it has any entry. |
| Entries.DailyEntries | lib/helpers/entries-helper.ts:22-86 | There are no more days than entries, and no days exactly when there are no entries. |
| Entries.GetDailyTimeEntries | lib/helpers/entries-helper.ts:22-86 | The two loops (bucketing by date, then building each day) return exactly `DailyEntries` of the input. |
| Entries.DaysPartitionEntries | lib/helpers/entries-helper.ts:25-45 | The properties of the days: (1) They are keyed by the dates of their entries' starts, each date once, in order of first occurrence. (2) Each day holds exactly the input entries with its date, in input order. (3) Together the days hold a permutation of the input. |
| Entries.EntryLandsInItsStartDay | lib/helpers/entries-helper.ts:25-42 | Every entry of a day is an input entry whose start falls on that day's date. |
| Entries.EveryEntryHasADay | lib/helpers/entries-helper.ts:25-42 | Every input entry's start date is the key of one of the days. |
| Entries.BucketingIgnoresEnd | lib/helpers/entries-helper.ts:25-35 | Inputs that differ only in their ends give the same day keys. |
| Entries.DaysPreserveHours | lib/helpers/entries-helper.ts:48 | The days' totals add up to the total hours of all the input entries. |
| Entries.DayTotalIsSumOfGroups | lib/helpers/entries-helper.ts:48-66 | A day's `totalDayHours` equals the sum of its groups' `totalDescHours`. |
| Entries.GroupByPreservesHours | lib/helpers/entries-helper.ts:38-41 | Bucketing neither loses nor duplicates hours. |
| Entries.MakeDayGroups | lib/helpers/entries-helper.ts:51-74 | Within a day, the groups partition the day's entries. The groups' descriptions are the entries' descriptions without repeats, in order of first occurrence. Every group holds exactly the day's entries with its description (exact string equality), in order. Each description appears once. The id is `desc_idx` and each group carries its own total. There are between 1 and the day's entry count groups. |
| Entries.DaysHaveGroups | lib/helpers/entries-helper.ts:45-81 | Every day of the result is non-empty, has well-formed groups, and its total is the sum of its groups' totals. |
| Entries.GroupIdInjective | lib/helpers/entries-helper.ts:67 | An id `desc_idx` determines both the description and the index. |
| Entries.GroupIdShape | lib/helpers/entries-helper.ts:67 | An id ends in '_' followed by the decimal digits of the index. |
| Entries.GroupIdsUnique | lib/helpers/entries-helper.ts:62-73 | Within a day, group ids are pairwise different. |
| Entries.CaseSensitiveGroups | lib/helpers/entries-helper.ts:51-59 | "Bug fix" and "bug fix" on the same day form two groups. |
| Entries.SameDescriptionOnTwoDays | lib/helpers/entries-helper.ts:45-74 | One description on two days gives two separate groups. Each holds only its own day's entry, and both are numbered `desc_0`. |
| Entries.OneEntryDay | lib/helpers/entries-helper.ts:51-74 | A day with one entry and no end has one group, `desc_0`, holding that entry with 0 hours. |
| Duration.ToSeconds | lib/helpers/duration-helper.ts:6-22 | The scaling as written: hours are 3600 seconds, minutes 60, seconds 1, and a millisecond a millionth of a second. The sign is kept. |
| Duration.ToSecondsCorrected | lib/helpers/duration-helper.ts:7-22 | The unit scaling with a millisecond as a thousandth of a second. It agrees with the as-written switch on hours, minutes and seconds, and keeps the sign. |
| Duration.Fields | lib/helpers/duration-helper.ts:24-31 | The floor cascade gives minutes and seconds in 0..59. Hours·3600 + minutes·60 + seconds equals ⌊S⌋. |
| Duration.FieldsUnique | lib/helpers/duration-helper.ts:24-31 | The fields are the only such triple: the mixed-radix digits of ⌊S⌋. |
| Duration.FieldsOfWholeSeconds | lib/helpers/duration-helper.ts:24-31 | For whole n ≥ 0 seconds the fields are n div 3600, (n mod 3600) div 60 and n mod 60. |
| Duration.FieldsOfFloor | lib/helpers/duration-helper.ts:24-31 | Only the whole seconds matter: the fraction is floored away. |
| Duration.FormatShape | lib/helpers/duration-helper.ts:33-37 | For S ≥ 0 the output splits on ':' into exactly three fields. Minutes and seconds are exactly two characters; hours are at least two and never truncated. |
| Duration.FormatParseRoundTrip | lib/helpers/duration-helper.ts:24-37 | Reading the printed `hh:mm:ss` back gives exactly the floored fields, however many digits the hours take. |
| Duration.FormatDecimalTimeToDuration | lib/helpers/duration-helper.ts:1-38 | As written: for a non-negative amount, the output reads back as the floored hours, minutes and seconds of the amount scaled by `ToSeconds`. |
| Duration.FormatDecimalTimeToDurationCorrected | lib/helpers/duration-helper.ts:1-38 | The same with the millisecond scale of `ToSecondsCorrected`: the output reads back as the floored fields of the corrected seconds. |
| Duration.FormatIgnored | lib/helpers/duration-helper.ts:4-37 | The format argument never changes the output, for either formatter. |
| Duration.FormatReadsBackAsSeconds | lib/helpers/duration-helper.ts:1-38 | For any unit and a non-negative amount, the printed value reads back as the whole seconds of the scaled input. |
| Duration.UnitsAgree | lib/helpers/duration-helper.ts:7-19 | The same span given in hours, minutes, seconds or (with the corrected scale) milliseconds prints the same. |
| Duration.ExampleSeconds | lib/helpers/duration-helper.ts:14-37 | In exact arithmetic, 3661 seconds prints "01:01:01" (IEEE doubles lose the last second here; see "## Left out"). |
| Duration.ExampleHours | lib/helpers/duration-helper.ts:8-37 | 1.5 hours prints "01:30:00". |
| Duration.ExampleZero | lib/helpers/duration-helper.ts:1-38 | 0 in any unit and any format prints "00:00:00". |
| Duration.ConvertSecondsToHours | lib/helpers/duration-helper.ts:40-42 | The result times 3600 is the input. |
| Duration.MillisecondsAsWritten | lib/helpers/duration-helper.ts:17-19 | As written, 3 600 000 ms (one hour) prints "00:00:03", which differs from what one hour prints. The corrected formatter prints it as one hour. |
| Duration.CorrectedMillisecondsAgree | lib/helpers/duration-helper.ts:7-22 | With the corrected scale, x seconds given in milliseconds print as x seconds do, and every other unit prints exactly as written. |
| Text.NatToStringRoundTrip | lib/helpers/duration-helper.ts:33-35 | The decimal digits of a number read back as that number. |
| Text.PaddedNatRoundTrip | lib/helpers/duration-helper.ts:33-35 | Zero-padding keeps a number's digits and value. |
| Text.PadStart | lib/helpers/duration-helper.ts:33-35 | `padStart` reaches the width, keeps the string as a suffix, fills with the pad character and never truncates. |
| Text.SplitCount | components/invoice-templates/ehrlich-template.tsx:97 | Splitting gives one more part than there are separators. |
| Text.JoinSplitRemoves | components/invoice-templates/ehrlich-template.tsx:97 | Splitting on a character and joining with "" deletes every occurrence of it. |
| Text.StrLessTotal | components/invoice-templates/ehrlich-template.tsx:107-108 | Two different strings are ordered one way or the other. |
| Text.StrNotGreaterTransitive | components/invoice-templates/ehrlich-template.tsx:104-110 | "Not greater than" on strings is transitive. |
| LegacyDuration.FormatSecondsToDuration | lib/duration-helper.ts:1-16 | The older formatter prints exactly what the newer one prints for the 'seconds' unit. |
| LegacyDuration.FormatWholeSeconds | lib/duration-helper.ts:2-15 | For whole n ≥ 0 the printed fields read back as n div 3600, (n mod 3600) div 60 and n mod 60, and these add up to n. |
| LegacyDuration.ConvertSecondsToHours | lib/duration-helper.ts:18-20 | The result times 3600 is the input; it agrees with the newer helper. |
| Earnings.CalculateEarnings | lib/helpers/earnings-helper.ts:5-17 | Tax + net = gross. Net = hours·rate·(1 − percent). For non-negative inputs and a percent in [0, 1], tax and net lie between 0 and gross. |
| Earnings.DefaultExample | lib/helpers/earnings-helper.ts:3-16 | With the default 2%, 10 hours at 500 give 5000 gross, 100 tax, 4900 net. |
| Earnings.ZeroHours | lib/helpers/earnings-helper.ts:5-17 | Zero hours give all-zero results. |
| Earnings.NoTax | lib/helpers/earnings-helper.ts:11-15 | With a 0 percent, net equals gross. |
| Earnings.Additive | lib/helpers/earnings-helper.ts:10-15 | Gross, tax and net of summed hours are the sums of those of the parts. |
| LegacyEarnings.CalculateEarnings | lib/earnings-helper.ts:5-17 | Tax and net equal the newer helper's for seconds/3600 hours, and add up to seconds/3600·rate. |
| LegacyEarnings.SameDefault | lib/earnings-helper.ts:3-16 | With the default percent both helpers give the same tax and net. |
| InvoiceTemplate.PeriodCode | components/invoice-templates/ehrlich-template.tsx:91-93 | The code starts with the lower-cased three-letter month abbreviation, then the year's digits, and ends with 'a' exactly when the date is the 1st, else 'b'. |
| InvoiceTemplate.PeriodCodeShape | components/invoice-templates/ehrlich-template.tsx:91-93 | For a year of at most four digits, the code is eight characters: the lower-cased month abbreviation, four digits that read back as the year, and 'a' exactly when the date is the 1st, else 'b'. |
| InvoiceTemplate.YearStringShape | components/invoice-templates/ehrlich-template.tsx:92 | A year of at most four digits prints as four digits that read back as it. |
| InvoiceTemplate.PeriodCodeExample | components/invoice-templates/ehrlich-template.tsx:91-93 | August 2021 gives "aug2021a" on the 1st and "aug2021b" otherwise. |
| InvoiceTemplate.InvoicePeriod | components/invoice-templates/ehrlich-template.tsx:91-103 | The period ends in 'a' (first half of the month) exactly when the first given day, or today when no day is given, is the 1st. |
| InvoiceTemplate.InvoicePeriodOfFirstGivenDay | components/invoice-templates/ehrlich-template.tsx:100-110 | The rendered invoice's period is the code of the first day as given (today's when there is none), whatever day the sorted rows start with. When the days are already in order, it is also the first row's code; `PeriodFromFirstGivenDay` shows an input where the two differ. |
| InvoiceTemplate.PeriodFromFirstGivenDay | components/invoice-templates/ehrlich-template.tsx:100-110 | With the 16th given before the 1st, the code names the second half although the first sorted row is the 1st. |
| InvoiceTemplate.Watermark | components/invoice-templates/ehrlich-template.tsx:96-99 | The watermark is the name with every space removed, lower-cased. It has no space and no capital. |
| InvoiceTemplate.WatermarkIdempotent | components/invoice-templates/ehrlich-template.tsx:96-99 | A watermark is its own watermark. |
| InvoiceTemplate.Insert | components/invoice-templates/ehrlich-template.tsx:104-110 | One insertion step adds exactly the new day, so the length grows by one. The last element is the new day or the old last one. |
| InvoiceTemplate.InsertAscending | components/invoice-templates/ehrlich-template.tsx:104-110 | Inserting into rows in order keeps them in order. |
| InvoiceTemplate.AscendingDailyEntries | components/invoice-templates/ehrlich-template.tsx:104-110 | The sorted copy is a permutation of the days. |
| InvoiceTemplate.SortAscending | components/invoice-templates/ehrlich-template.tsx:104-110 | The sorted copy is non-decreasing by date string under JavaScript string order. |
| InvoiceTemplate.AscendingAllPairs | components/invoice-templates/ehrlich-template.tsx:104-110 | In sorted rows every pair, not just neighbours, is in order. |
| InvoiceTemplate.SortKeepsAscending | components/invoice-templates/ehrlich-template.tsx:104-110 | Days already in order come out unchanged. |
| InvoiceTemplate.SortKeepsSum | components/invoice-templates/ehrlich-template.tsx:104-110 | Sorting leaves the sum of any per-day figure unchanged. |
| InvoiceTemplate.SortTwoExample | components/invoice-templates/ehrlich-template.tsx:104-110 | The 16th given before the 1st is sorted after it. |
| InvoiceTemplate.Truncate48 | components/invoice-templates/ehrlich-template.tsx:201-203 | The description cell never exceeds 48 characters. The two cases define lodash's rule for `{length: 48}` with no separator and the default omission: the whole text when it fits, otherwise its first 45 characters followed by "...". |
| InvoiceTemplate.MonthDayRoundTrip | components/invoice-templates/ehrlich-template.tsx:199 | The "M/D" column splits into the 1-based month and the day, which read back. |
| InvoiceTemplate.Row | components/invoice-templates/ehrlich-template.tsx:197-212 | QTY is the day's hours. The description is the day's group descriptions joined by ", " when that fits in 48 characters, and at most 48 characters always. |
| InvoiceTemplate.RowDueIsGross | components/invoice-templates/ehrlich-template.tsx:211 | DUE is the gross pay for the day's hours, with no tax deducted. |
| InvoiceTemplate.Rows | components/invoice-templates/ehrlich-template.tsx:196-212 | One row per day, in the days' order. Row i has day i's hours as QTY and its "M/D" date. |
| InvoiceTemplate.RowsQty | components/invoice-templates/ehrlich-template.tsx:196-209 | The QTY column of the rows built from some days adds up to the days' summed hours. |
| InvoiceTemplate.RowsDue | components/invoice-templates/ehrlich-template.tsx:196-211 | The DUE column of the rows built from some days adds up to the days' gross pay. |
| InvoiceTemplate.SumDue | components/invoice-templates/ehrlich-template.tsx:211 | The days' gross pay adds up to their summed hours times the rate. |
| InvoiceTemplate.SortKeepsDayHours | components/invoice-templates/ehrlich-template.tsx:104-110 | Sorting the days leaves their summed hours unchanged. |
| InvoiceTemplate.SortKeepsQty | components/invoice-templates/ehrlich-template.tsx:104-110 | Sorting the rows leaves the QTY sum unchanged. |
| InvoiceTemplate.SortKeepsDue | components/invoice-templates/ehrlich-template.tsx:104-110 | Sorting the rows leaves the DUE sum unchanged. |
| InvoiceTemplate.InvoiceQtyMatchesEntries | components/invoice-templates/ehrlich-template.tsx:196-209 | For days built from a list of entries, the QTY column of the rendered invoice adds up to the entries' total hours. |
| InvoiceTemplate.InvoiceDueMatchesDays | components/invoice-templates/ehrlich-template.tsx:196-211 | The DUE column of the rendered invoice adds up to the given days' summed hours times the rate. |
| InvoiceTemplate.RenderInvoice | components/invoice-templates/ehrlich-template.tsx:95-212 | The invoice has one row per given day, and its watermark has no space and no capital. |
| InvoiceTemplate.InvoiceRowsAreSortedDays | components/invoice-templates/ehrlich-template.tsx:104-212 | The rows are the given days, each exactly once, with every pair in ascending order of date strings, row i built from the i-th sorted day. |
| InvoiceTemplate.SummaryIgnoresRows | components/invoice-templates/ehrlich-template.tsx:264-265 | The totals, tax and due rows show the passed-in totals, whatever the days are. |
| Dashboard.StartOfWeekUtc | pages/dashboard.tsx:75 | Start of the UTC week: a Sunday midnight no later than the instant and less than a week before it. The days between them number the instant's weekday. |
| Dashboard.Weekday | pages/dashboard.tsx:74-77 | The weekday of an instant is in 0..6, with 0 for Sunday. |
| Dashboard.EpochIsThursday | pages/dashboard.tsx:74-75 | 1970-01-01 UTC is a Thursday (weekday 4) from its first to its last millisecond, and the instant before it is a Wednesday. |
| Dashboard.WeekdayNextDay | pages/dashboard.tsx:74-77 | One day later the weekday is one more, Saturday (6) wrapping round to Sunday (0). |
| Dashboard.InitialRange | pages/dashboard.tsx:73-78 | The initial range spans one week less 1 ms. It starts one day after a Sunday midnight that is at most a week before now. |
| Dashboard.InitialRangeIsMondayWeek | pages/dashboard.tsx:73-78 | The initial range starts on a Monday at 00:00 UTC and ends on the following Sunday at 23:59:59.999 UTC, exactly one week less 1 ms later. |
| Dashboard.InitialRangeContainsNow | pages/dashboard.tsx:73-78 | The initial range contains now exactly when today (UTC) is not a Sunday. On a Sunday it begins at the next midnight. |
| Dashboard.DashboardState.constructor | pages/dashboard.tsx:71-78 | The page starts with the weekly period and the initial range. |
| Dashboard.DashboardState.NextRange | pages/dashboard.tsx:127-132 | Both bounds move one week later and the period is kept. The range stays a Monday-to-Sunday week. |
| Dashboard.DashboardState.PrevRange | pages/dashboard.tsx:134-139 | Both bounds move one week earlier and the period is kept. The range stays a Monday-to-Sunday week. |
| Dashboard.DashboardState.SetPeriod | pages/dashboard.tsx:237 | Choosing the period stores the kind and never changes the range. |
| Dashboard.NextThenPrev | pages/dashboard.tsx:127-139 | Forward then back restores the range and the period. |
| Dashboard.Shift | pages/dashboard.tsx:127-139 | A shift keeps the length of the range. No weeks leave it as it was; moving forward makes both bounds later and moving back makes both earlier. |
| Dashboard.ShiftRoundTrip | pages/dashboard.tsx:127-139 | Shifting +1 then −1 week, or −1 then +1, restores the range. |
| Dashboard.ShiftKeepsMondayWeek | pages/dashboard.tsx:127-139 | Any whole-week shift keeps a Monday-to-Sunday week, so `end − start` is invariant. |
| Dashboard.ShiftContains | pages/dashboard.tsx:127-139 | An instant is in the shifted range exactly when it is the shift of one in the original. |
| Dashboard.ReportPay | pages/dashboard.tsx:150-151 | Earnings are computed once over totalTime/3600 hours, with a missing total counted as 0. Tax plus net is the gross for those hours, and tax is the default 2% of it. |
| Dashboard.ComputeReportStats | pages/dashboard.tsx:149-166 | Total Earnings plus Tax Withheld is the gross pay for totalTime/3600 hours, and Tax Withheld is the default 2% of that gross, so Total Earnings is the other 98%. For a non-negative total, the "Total Time" figure reads back as its whole hours, minutes and seconds. |
| Dashboard.MissingTotalIsZero | pages/dashboard.tsx:150-165 | With no total, the figures are those of zero seconds: "00:00:00", no earnings, no tax. |
| Dashboard.ReportPayMatchesLegacy | pages/dashboard.tsx:150-151 | The figures agree with the older seconds-based earnings helper. |
| Dashboard.DashboardDays | pages/dashboard.tsx:168-170 | With no report there are no days. Otherwise the days' totals add up to the entries' total hours. |
| Dashboard.DayBadge | pages/dashboard.tsx:288 | A day's badge is its hours times the rate times 0.98. |
| Dashboard.NetPayIsProportional | lib/helpers/earnings-helper.ts:5-17 | At a fixed rate and the default deduction, net pay is the hours times the rate times 0.98. |
| Dashboard.BadgesAddUp | pages/dashboard.tsx:288 | The badges of any days add up to the net pay for their summed hours. |
| Dashboard.BadgesAddUpToNetPay | pages/dashboard.tsx:149-170 | The day badges add up to the net pay computed once over all the entries' hours. |

## Left out

- Floating point. JavaScript computes the floor cascade, the hour differences and
  the money in IEEE doubles, which can lose a second (S = 3661) or a cent. The
  model uses exact reals. The sums of row figures and badges agree with the
  aggregate figures only in exact arithmetic.
- `toFixed(2)`, `numeral(...).format("0,0.00")` and the currency prefix are
  presentation and are not modelled. QTY, DUE and the badges are the unformatted
  numbers.
- Date parsing and time zones are not modelled. These come from dayjs and are
  parameters:
  - the local calendar date of an instant (`dateOf`);
  - the ISO string a date key is carried as (`stamp`);
  - `week()` (`weekOf`);
  - the current day and instant (`today`, `now`).
  `DailyEntry.dateStarted` is kept as the (year, month, date) key, and the
  invoice compares `stamp` of it.
- `toLowerCase` is modelled on ASCII letters only; other letters are left as
  they are.
- InvoiceTemplate.Truncate48 counts length in characters. lodash counts Unicode
  symbols, where a combining sequence or an emoji sequence counts as one, so a
  description holding such sequences can be cut at a different place.
- Descriptions that name a member every JavaScript object inherits
  ("constructor", "toString", "valueOf", "hasOwnProperty", "__proto__", ...) are
  not modelled as the source treats them. At lib/helpers/entries-helper.ts:55
  the lookup finds the inherited member, so no array is created, and the `push`
  at line 58 throws a TypeError. The model treats such a description like any
  other and builds a group for it.
- Text.StrLess compares Unicode scalar values; JavaScript's `<` compares UTF-16
  code units. The two orders differ only between characters above U+FFFF and
  characters from U+E000 to U+FFFF, which ISO date strings never contain.
- `Object.entries` lists integer-like keys (a description "42") ahead of other
  keys. The model keeps first-insertion order for every key.
- The semi-monthly period: the code has no semi-monthly navigation. The
  selector stores the kind and the range stays weekly, so the model follows the
  code and defines no 1st–15th / 16th–end ranges.
- Input validation: the code rejects no entry with a missing or malformed
  `start`, so the model has no rejection path.
- InvoiceTemplate.AscendingDailyEntries: `[...days].sort(cmp)` is modelled as a
  function returning the sorted copy. It is a stable insertion sort, as the
  comparator with 0 for equal keys and a stable `Array.prototype.sort` give. The
  in-place sorting of the fresh array is not modelled. Because the model works
  on values, the given `dailyEntries` are unchanged by construction.
- InvoiceTemplate.InvoiceDueMatchesDays: the DUE total is stated over the given
  days, not over the entries they were built from. For days built from entries,
  `Entries.DaysPreserveHours` equates the days' summed hours with the entries'
  total hours.
- The day header's `formatDecimalTimeToDuration(totalDayHours, "hours")` and
  `toFixed(2)` texts and the group rows are rendering only and are not modelled.
  Their arithmetic is `Duration.FormatDecimalTimeToDuration` with the hours unit.
- Duration.FormatDecimalTimeToDurationCorrected divides milliseconds by 1000, not
  by 1e6 as the source does (see Findings). Every other unit is scaled as
  written. `Duration.FormatDecimalTimeToDuration` keeps the source's scale. The
  callers modelled here use only the seconds and hours units, where the two agree.
- Dashboard.TotalSeconds: the source's `|| 0` also maps a total of NaN to 0. The
  model has no NaN.
- Not modelled:
  - the hourly-rate form;
  - fetching the report, and the cookie holding the rate;
  - login and routing;
  - the PDF layout, including the hard-coded "aug2021a" in the PDF modal;
  - every UI component.
  They are I/O or presentation.

## Findings

| source | as written | input that shows it | evidently intended | confidence | as-written member | corrected member |
|---|---|---|---|---|---|---|
| lib/helpers/duration-helper.ts:18 | the 'milliseconds' unit divides by 1e6 | 3 600 000 with 'milliseconds' (one hour) prints "00:00:03" instead of "01:00:00" | divide by 1e3 | not executed; no caller in the code uses the 'milliseconds' unit | Duration.MillisecondsAsWritten | Duration.CorrectedMillisecondsAgree |
