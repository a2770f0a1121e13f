/**
 * The values the invoice template derives (components/invoice-templates/
 * ehrlich-template.tsx): the period code, the watermark, the rows (days sorted
 * ascending by their date string) and the summary figures. Page layout is not
 * modelled. `stamp` renders a day's date key the way the daily entries carry it
 * (an ISO timestamp string) and `weekOf` gives its week of the year; both come
 * from the date library and are parameters here.
 */
module InvoiceTemplate {
  import opened Text
  import opened Entries
  import Earnings

  // ---------------------------------------------------------------------------
  // Period code

  const MonthAbbrev: seq<string> := ["Jan", "Feb", "Mar", "Apr", "May", "Jun", "Jul", "Aug", "Sep", "Oct", "Nov", "Dec"]

  /** `format("YYYY")`: the year padded with zeros to four characters. */
  function YearString(year: int): string
  {
    PadStart(IntToString(year), 4, '0')
  }

  /** getCurrentPeriodCode: lower-cased month abbreviation and year, then 'a' on the 1st, 'b' otherwise. */
  function PeriodCode(k: DateKey): (r: string)
    ensures |r| == |YearString(k.year)| + 4
    ensures r[..3] == Lower(MonthAbbrev[k.month])
    ensures r[|r| - 1] == if k.date == 1 then 'a' else 'b'
  {
    MonthAbbrevShape(k.month);
    LowerAppend(MonthAbbrev[k.month] + YearString(k.year), if k.date == 1 then "a" else "b");
    LowerAppend(MonthAbbrev[k.month], YearString(k.year));
    Lower(MonthAbbrev[k.month] + YearString(k.year) + (if k.date == 1 then "a" else "b"))
  }

  lemma MonthAbbrevShape(m: Month)
    ensures |MonthAbbrev[m]| == 3
  {
  }

  /**
   * For a year of at most four digits the code is eight characters: the
   * lower-cased month abbreviation, the year's four digits (which read back as
   * the year) and 'a' exactly when the date is the 1st of the month, else 'b'.
   */
  lemma PeriodCodeShape(k: DateKey)
    requires 0 <= k.year <= 9999
    ensures var r := PeriodCode(k);
      && |r| == 8
      && r[..3] == Lower(MonthAbbrev[k.month])
      && AllDigits(r[3..7]) && DigitsValue(r[3..7]) == k.year
      && (r[7] == 'a' <==> k.date == 1)
      && (r[7] == 'b' <==> k.date != 1)
  {
    var y := YearString(k.year);
    var tail := if k.date == 1 then "a" else "b";
    YearStringShape(k.year);
    MonthAbbrevShape(k.month);
    LowerAppend(MonthAbbrev[k.month] + y, tail);
    LowerAppend(MonthAbbrev[k.month], y);
    var r := Lower(MonthAbbrev[k.month]) + y + Lower(tail);
    assert PeriodCode(k) == r;
    assert r[..3] == Lower(MonthAbbrev[k.month]);
    assert r[3..7] == y;
  }

  /** A year of at most four digits is printed as exactly four digits that read back as the year. */
  lemma YearStringShape(year: int)
    requires 0 <= year <= 9999
    ensures var y := YearString(year);
      |y| == 4 && AllDigits(y) && DigitsValue(y) == year && Lower(y) == y
  {
    var y := YearString(year);
    assert Pow10(4) == 10000;
    NatToStringWidth(year, 4);
    PaddedNatRoundTrip(year, 4);
    assert HasNoUpper(y) by {
      forall i | 0 <= i < |y| ensures !('A' <= y[i] <= 'Z') {
        assert IsDigit(y[i]);
      }
    }
    LowerOfLower(y);
  }

  /**
   * The invoice's period comes from the first daily entry as given, or from today
   * when there is none: it names the first half of the month ('a') exactly when
   * that day is the 1st.
   */
  function InvoicePeriod(dailyEntries: seq<DailyEntry>, today: DateKey): (r: string)
    ensures |r| >= 4
    ensures dailyEntries == [] ==> (r[|r| - 1] == 'a' <==> today.date == 1)
    ensures dailyEntries != [] ==> (r[|r| - 1] == 'a' <==> dailyEntries[0].dateStarted.date == 1)
  {
    PeriodCode(if dailyEntries == [] then today else dailyEntries[0].dateStarted)
  }

  // ---------------------------------------------------------------------------
  // Watermark

  /**
   * The name split on ' ', joined with nothing, lower-cased: the name with every
   * space removed and every ASCII capital lower-cased, so it holds no space and
   * no capital.
   */
  function Watermark(name: string): (w: string)
    ensures w == Lower(Remove(name, ' '))
    ensures ' ' !in w && HasNoUpper(w)
  {
    JoinSplitRemoves(name, ' ');
    LowerKeepsSpaces(Remove(name, ' '));
    Lower(Join(Split(name, ' '), ""))
  }

  lemma LowerKeepsSpaces(s: string)
    requires ' ' !in s
    ensures ' ' !in Lower(s)
  {
  }

  /** Taking the watermark of a watermark changes nothing. */
  lemma WatermarkIdempotent(name: string)
    ensures Watermark(Watermark(name)) == Watermark(name)
  {
    var w := Watermark(name);
    RemoveAbsent(w, ' ');
    LowerOfLower(w);
  }

  lemma {:induction false} RemoveAbsent(s: string, c: char)
    requires c !in s
    ensures Remove(s, c) == s
    decreases |s|
  {
    if s != [] {
      RemoveAbsent(s[1..], c);
      assert [s[0]] + s[1..] == s;
    }
  }

  // ---------------------------------------------------------------------------
  // The rows, sorted ascending by their date string (a stable sort on a copy)

  function DayStamp(stamp: DateKey -> string, d: DailyEntry): string
  {
    stamp(d.dateStarted)
  }

  /** Adjacent rows are in non-decreasing order of their date strings. */
  predicate Ascending(days: seq<DailyEntry>, stamp: DateKey -> string)
  {
    forall i :: 0 < i < |days| ==> !StrLess(DayStamp(stamp, days[i]), DayStamp(stamp, days[i - 1]))
  }

  /** Inserts `x` after every element whose date string is not greater than its own. */
  function Insert(days: seq<DailyEntry>, x: DailyEntry, stamp: DateKey -> string): (r: seq<DailyEntry>)
    ensures |r| == |days| + 1
    ensures multiset(r) == multiset(days) + multiset{x}
    ensures r[|r| - 1] == x || (days != [] && r[|r| - 1] == days[|days| - 1])
  {
    if days == [] then [x]
    else
      var last := days[|days| - 1];
      var init := days[..|days| - 1];
      assert init + [last] == days;
      if StrLess(DayStamp(stamp, x), DayStamp(stamp, last)) then Insert(init, x, stamp) + [last]
      else days + [x]
  }

  /** Inserting into rows that are in order keeps them in order. */
  lemma {:induction false} InsertAscending(days: seq<DailyEntry>, x: DailyEntry, stamp: DateKey -> string)
    requires Ascending(days, stamp)
    ensures Ascending(Insert(days, x, stamp), stamp)
    decreases |days|
  {
    if days != [] {
      var last := days[|days| - 1];
      var init := days[..|days| - 1];
      if StrLess(DayStamp(stamp, x), DayStamp(stamp, last)) {
        InsertAscending(init, x, stamp);
        StrLessAsymmetric(DayStamp(stamp, x), DayStamp(stamp, last));
        var r := Insert(init, x, stamp);
        assert Insert(days, x, stamp) == r + [last];
        assert (r + [last])[..|r|] == r;
      }
    }
  }

  /** `[...dailyEntries].sort(byDateStarted)`: the copy, sorted. */
  function AscendingDailyEntries(days: seq<DailyEntry>, stamp: DateKey -> string): (r: seq<DailyEntry>)
    ensures multiset(r) == multiset(days)
  {
    if days == [] then []
    else
      assert days[..|days| - 1] + [days[|days| - 1]] == days;
      Insert(AscendingDailyEntries(days[..|days| - 1], stamp), days[|days| - 1], stamp)
  }

  /** The sorted copy is in ascending order of the date strings. */
  lemma {:induction false} SortAscending(days: seq<DailyEntry>, stamp: DateKey -> string)
    ensures Ascending(AscendingDailyEntries(days, stamp), stamp)
  {
    if days != [] {
      var init := days[..|days| - 1];
      SortAscending(init, stamp);
      InsertAscending(AscendingDailyEntries(init, stamp), days[|days| - 1], stamp);
    }
  }

  /** Inserting a day adds exactly its own figure to the sum. */
  lemma {:induction false} InsertSum(days: seq<DailyEntry>, x: DailyEntry, value: DailyEntry -> real, stamp: DateKey -> string)
    ensures SumOver(Insert(days, x, stamp), value) == SumOver(days, value) + value(x)
    decreases |days|
  {
    if days != [] {
      var last := days[|days| - 1];
      var init := days[..|days| - 1];
      if StrLess(DayStamp(stamp, x), DayStamp(stamp, last)) {
        InsertSum(init, x, value, stamp);
        var r := Insert(init, x, stamp);
        assert (r + [last])[..|r|] == r;
      } else {
        assert (days + [x])[..|days|] == days;
      }
    }
  }

  /** Sorting leaves the sum of any per-day figure (hours, amount due) unchanged. */
  lemma {:induction false} SortKeepsSum(days: seq<DailyEntry>, value: DailyEntry -> real, stamp: DateKey -> string)
    ensures SumOver(AscendingDailyEntries(days, stamp), value) == SumOver(days, value)
  {
    if days != [] {
      var init := days[..|days| - 1];
      SortKeepsSum(init, value, stamp);
      InsertSum(AscendingDailyEntries(init, stamp), days[|days| - 1], value, stamp);
    }
  }

  /** Every pair of rows, not just neighbours, is in order. */
  lemma {:induction false} AscendingAllPairs(days: seq<DailyEntry>, stamp: DateKey -> string, i: nat, j: nat)
    requires Ascending(days, stamp) && i < j < |days|
    ensures !StrLess(DayStamp(stamp, days[j]), DayStamp(stamp, days[i]))
    decreases j - i
  {
    if j > i + 1 {
      AscendingAllPairs(days, stamp, i, j - 1);
      StrNotGreaterTransitive(DayStamp(stamp, days[i]), DayStamp(stamp, days[j - 1]), DayStamp(stamp, days[j]));
    }
  }

  /** An input already in order comes out unchanged. */
  lemma {:induction false} SortKeepsAscending(days: seq<DailyEntry>, stamp: DateKey -> string)
    requires Ascending(days, stamp)
    ensures AscendingDailyEntries(days, stamp) == days
  {
    if days != [] {
      var init, last := days[..|days| - 1], days[|days| - 1];
      assert Ascending(init, stamp);
      SortKeepsAscending(init, stamp);
      InsertAtEnd(init, last, stamp);
      assert init + [last] == days;
    }
  }

  lemma InsertAtEnd(days: seq<DailyEntry>, x: DailyEntry, stamp: DateKey -> string)
    requires days != [] ==> !StrLess(DayStamp(stamp, x), DayStamp(stamp, days[|days| - 1]))
    ensures Insert(days, x, stamp) == days + [x]
  {
  }

  // ---------------------------------------------------------------------------
  // Columns of a row

  /** lodash `truncate(s, {length: 48})`: longer strings keep 45 characters and get "...". */
  function Truncate48(s: string): (r: string)
    ensures |r| <= 48
    ensures |s| <= 48 ==> r == s
    ensures |s| > 48 ==> r == s[..45] + "..."
  {
    if |s| <= 48 then s else s[..45] + "..."
  }

  /** `format("M/D")`: month (1-based) and date without padding. */
  function MonthDay(k: DateKey): string
  {
    NatToString(k.month + 1) + "/" + NatToString(k.date)
  }

  /** The "M/D" column splits on '/' into the 1-based month and the day, which read back. */
  lemma MonthDayRoundTrip(k: DateKey)
    ensures Split(MonthDay(k), '/') == [NatToString(k.month + 1), NatToString(k.date)]
    ensures DigitsValue(Split(MonthDay(k), '/')[0]) == k.month + 1
    ensures DigitsValue(Split(MonthDay(k), '/')[1]) == k.date
  {
    var a, b := NatToString(k.month + 1), NatToString(k.date);
    assert '/' !in a;
    assert '/' !in b;
    SplitAround(a, '/', b);
    SplitWithout(b, '/');
    NatToStringRoundTrip(k.month + 1);
    NatToStringRoundTrip(k.date);
  }

  datatype InvoiceRow = InvoiceRow(
    date: string,
    description: string,
    weekNumber: int,
    weekTotal: string,
    qty: real,
    due: real)

  /**
   * The columns of one day's row; QTY and DUE are the unformatted numbers. QTY
   * is the day's hours and DUE the gross pay for them (no tax deducted); the
   * description shows the day's descriptions joined by ", " whole when that fits
   * in 48 characters.
   */
  function Row(d: DailyEntry, hourlyRate: real, weekOf: DateKey -> int): (r: InvoiceRow)
    ensures r.qty == d.totalDayHours
    ensures |r.description| <= 48
    ensures |Join(Descriptions(d.groupedTimeEntries), ", ")| <= 48 ==>
      r.description == Join(Descriptions(d.groupedTimeEntries), ", ")
  {
    InvoiceRow(
      MonthDay(d.dateStarted),
      Truncate48(Join(Descriptions(d.groupedTimeEntries), ", ")),
      weekOf(d.dateStarted),
      " ",
      d.totalDayHours,
      d.totalDayHours * hourlyRate)
  }

  /** A row's DUE is the gross pay for the day's hours: no tax is deducted. */
  lemma RowDueIsGross(d: DailyEntry, hourlyRate: real, weekOf: DateKey -> int)
    ensures Row(d, hourlyRate, weekOf).due == Earnings.CalculateEarnings(d.totalDayHours, hourlyRate).earnings
  {
  }

  /** One row per day, in the days' order. */
  function Rows(days: seq<DailyEntry>, hourlyRate: real, weekOf: DateKey -> int): (rows: seq<InvoiceRow>)
    ensures |rows| == |days|
    ensures forall i :: 0 <= i < |days| ==>
      rows[i].qty == days[i].totalDayHours && rows[i].date == MonthDay(days[i].dateStarted)
  {
    seq(|days|, i requires 0 <= i < |days| => Row(days[i], hourlyRate, weekOf))
  }

  /** The QTY column added up. */
  function QtyTotal(rows: seq<InvoiceRow>): real
  {
    if rows == [] then 0.0 else QtyTotal(rows[..|rows| - 1]) + rows[|rows| - 1].qty
  }

  /** The DUE column added up. */
  function DueTotal(rows: seq<InvoiceRow>): real
  {
    if rows == [] then 0.0 else DueTotal(rows[..|rows| - 1]) + rows[|rows| - 1].due
  }

  /** The QTY column of the rows built from some days adds up to the days' hours. */
  lemma {:induction false} RowsQty(days: seq<DailyEntry>, hourlyRate: real, weekOf: DateKey -> int)
    ensures QtyTotal(Rows(days, hourlyRate, weekOf)) == SumDayHours(days)
  {
    if days != [] {
      var init := days[..|days| - 1];
      RowsQty(init, hourlyRate, weekOf);
      assert Rows(days, hourlyRate, weekOf)[..|days| - 1] == Rows(init, hourlyRate, weekOf);
    }
  }

  /** The DUE figure of a day's row: the gross pay for its hours. */
  function DueOf(hourlyRate: real): DailyEntry -> real
  {
    (d: DailyEntry) => Earnings.CalculateEarnings(d.totalDayHours, hourlyRate).earnings
  }

  /** The DUE column of the rows built from some days adds up each day's gross pay. */
  lemma {:induction false} RowsDue(days: seq<DailyEntry>, hourlyRate: real, weekOf: DateKey -> int)
    ensures DueTotal(Rows(days, hourlyRate, weekOf)) == SumOver(days, DueOf(hourlyRate))
  {
    if days != [] {
      var init := days[..|days| - 1];
      var rows, last := Rows(days, hourlyRate, weekOf), days[|days| - 1];
      var a, b := DueTotal(rows[..|days| - 1]), rows[|days| - 1].due;
      assert a == SumOver(init, DueOf(hourlyRate)) by {
        assert rows[..|days| - 1] == Rows(init, hourlyRate, weekOf);
        RowsDue(init, hourlyRate, weekOf);
      }
      assert b == DueOf(hourlyRate)(last) by {
        assert rows[|days| - 1] == Row(last, hourlyRate, weekOf);
        RowDueIsGross(last, hourlyRate, weekOf);
      }
      assert DueTotal(rows) == a + b;
    }
  }

  /** The days' gross pay adds up to their summed hours times the rate. */
  lemma SumDue(days: seq<DailyEntry>, hourlyRate: real)
    ensures SumOver(days, DueOf(hourlyRate)) == SumDayHours(days) * hourlyRate
  {
    SumOverProportional(days, DueOf(hourlyRate), hourlyRate);
  }

  /** The QTY figure of a day's row. */
  function QtyOf(): DailyEntry -> real
  {
    (d: DailyEntry) => d.totalDayHours
  }

  /** Sorting the days leaves their summed hours unchanged. */
  lemma SortKeepsDayHours(days: seq<DailyEntry>, stamp: DateKey -> string)
    ensures SumDayHours(AscendingDailyEntries(days, stamp)) == SumDayHours(days)
  {
    SortKeepsSum(days, QtyOf(), stamp);
    SumOverQty(days);
    SumOverQty(AscendingDailyEntries(days, stamp));
  }

  lemma SumOverQty(days: seq<DailyEntry>)
    ensures SumOver(days, QtyOf()) == SumDayHours(days)
  {
    SumOverProportional(days, QtyOf(), 1.0);
  }

  /** Sorting the rows leaves the total of the QTY column unchanged. */
  lemma SortKeepsQty(days: seq<DailyEntry>, hourlyRate: real, weekOf: DateKey -> int, stamp: DateKey -> string)
    ensures QtyTotal(Rows(AscendingDailyEntries(days, stamp), hourlyRate, weekOf))
         == QtyTotal(Rows(days, hourlyRate, weekOf))
  {
    RowsQty(days, hourlyRate, weekOf);
    RowsQty(AscendingDailyEntries(days, stamp), hourlyRate, weekOf);
    SortKeepsDayHours(days, stamp);
  }

  /** Sorting the rows leaves the total of the DUE column unchanged. */
  lemma SortKeepsDue(days: seq<DailyEntry>, hourlyRate: real, weekOf: DateKey -> int, stamp: DateKey -> string)
    ensures DueTotal(Rows(AscendingDailyEntries(days, stamp), hourlyRate, weekOf))
         == DueTotal(Rows(days, hourlyRate, weekOf))
  {
    RowsDue(days, hourlyRate, weekOf);
    RowsDue(AscendingDailyEntries(days, stamp), hourlyRate, weekOf);
    SortKeepsSum(days, DueOf(hourlyRate), stamp);
  }

  // ---------------------------------------------------------------------------
  // The invoice

  datatype Totals = Totals(
    earnings: real,
    taxWithheld: real,
    totalEarnings: real,
    totalTimeInSeconds: real,
    totalTimeInHours: real)

  datatype Invoice = Invoice(
    watermark: string,
    period: string,
    rows: seq<InvoiceRow>,
    totalHours: real,
    totalDue: real,
    taxWithheld: real,
    dueAmount: real)

  /** What EhrlichInvoiceTemplate shows for the given props: one row per given day. */
  function RenderInvoice(
    name: string, hourlyRate: real, totals: Totals, dailyEntries: seq<DailyEntry>,
    today: DateKey, stamp: DateKey -> string, weekOf: DateKey -> int): (inv: Invoice)
    ensures |inv.rows| == |dailyEntries|
    ensures ' ' !in inv.watermark && HasNoUpper(inv.watermark)
  {
    var sorted := AscendingDailyEntries(dailyEntries, stamp);
    assert |sorted| == |multiset(sorted)| == |multiset(dailyEntries)| == |dailyEntries|;
    Invoice(
      Watermark(name),
      InvoicePeriod(dailyEntries, today),
      Rows(sorted, hourlyRate, weekOf),
      totals.totalTimeInHours,
      totals.earnings,
      totals.taxWithheld,
      totals.totalEarnings)
  }

  /**
   * The rows are the given days, each exactly once, in ascending order of their
   * date strings.
   */
  lemma InvoiceRowsAreSortedDays(
    name: string, hourlyRate: real, totals: Totals, dailyEntries: seq<DailyEntry>,
    today: DateKey, stamp: DateKey -> string, weekOf: DateKey -> int)
    ensures var inv := RenderInvoice(name, hourlyRate, totals, dailyEntries, today, stamp, weekOf);
      var sorted := AscendingDailyEntries(dailyEntries, stamp);
      && multiset(sorted) == multiset(dailyEntries)
      && |inv.rows| == |sorted|
      && (forall i, j :: 0 <= i < j < |sorted| ==>
            !StrLess(DayStamp(stamp, sorted[j]), DayStamp(stamp, sorted[i])))
      && (forall i :: 0 <= i < |sorted| ==> inv.rows[i] == Row(sorted[i], hourlyRate, weekOf))
  {
    var sorted := AscendingDailyEntries(dailyEntries, stamp);
    SortAscending(dailyEntries, stamp);
    forall i, j | 0 <= i < j < |sorted|
      ensures !StrLess(DayStamp(stamp, sorted[j]), DayStamp(stamp, sorted[i]))
    {
      AscendingAllPairs(sorted, stamp, i, j);
    }
  }

  /**
   * The period always comes from the first day as given (today's when there is
   * none), whatever day the sorted rows begin with. When the days are already in
   * order, it is also the first row's code; PeriodFromFirstGivenDay shows an
   * input where the two differ.
   */
  lemma InvoicePeriodOfFirstGivenDay(
    name: string, hourlyRate: real, totals: Totals, dailyEntries: seq<DailyEntry>,
    today: DateKey, stamp: DateKey -> string, weekOf: DateKey -> int)
    ensures var inv := RenderInvoice(name, hourlyRate, totals, dailyEntries, today, stamp, weekOf);
      && (dailyEntries == [] ==> inv.period == PeriodCode(today))
      && (dailyEntries != [] ==> inv.period == PeriodCode(dailyEntries[0].dateStarted))
      && (dailyEntries != [] && Ascending(dailyEntries, stamp) ==>
            inv.period == PeriodCode(AscendingDailyEntries(dailyEntries, stamp)[0].dateStarted))
  {
    if Ascending(dailyEntries, stamp) {
      SortKeepsAscending(dailyEntries, stamp);
    }
  }

  /**
   * The summary rows show the totals passed in, whatever the rows are: they are
   * never recomputed from the days.
   */
  lemma SummaryIgnoresRows(
    name: string, hourlyRate: real, totals: Totals, days1: seq<DailyEntry>, days2: seq<DailyEntry>,
    today: DateKey, stamp: DateKey -> string, weekOf: DateKey -> int)
    ensures var a := RenderInvoice(name, hourlyRate, totals, days1, today, stamp, weekOf);
      var b := RenderInvoice(name, hourlyRate, totals, days2, today, stamp, weekOf);
      && a.totalHours == b.totalHours == totals.totalTimeInHours
      && a.totalDue == b.totalDue == totals.earnings
      && a.taxWithheld == b.taxWithheld == totals.taxWithheld
      && a.dueAmount == b.dueAmount == totals.totalEarnings
  {
  }

  /**
   * For days built from a list of entries, the QTY column of the invoice adds up
   * to the hours of all those entries, in exact arithmetic.
   */
  lemma InvoiceQtyMatchesEntries(
    name: string, hourlyRate: real, totals: Totals, es: seq<TimeEntry>, dateOf: int -> DateKey,
    today: DateKey, stamp: DateKey -> string, weekOf: DateKey -> int)
    ensures QtyTotal(RenderInvoice(name, hourlyRate, totals, DailyEntries(es, dateOf), today, stamp, weekOf).rows)
         == TotalHours(es)
  {
    var days := DailyEntries(es, dateOf);
    RowsQty(AscendingDailyEntries(days, stamp), hourlyRate, weekOf);
    SortKeepsDayHours(days, stamp);
    DaysPreserveHours(es, dateOf);
  }

  /**
   * The DUE column of the invoice adds up to the given days' hours times the
   * rate, in exact arithmetic; with DaysPreserveHours, for days built from a
   * list of entries that is the entries' hours times the rate.
   */
  lemma InvoiceDueMatchesDays(
    name: string, hourlyRate: real, totals: Totals, days: seq<DailyEntry>,
    today: DateKey, stamp: DateKey -> string, weekOf: DateKey -> int)
    ensures DueTotal(RenderInvoice(name, hourlyRate, totals, days, today, stamp, weekOf).rows)
         == SumDayHours(days) * hourlyRate
  {
    RowsDue(AscendingDailyEntries(days, stamp), hourlyRate, weekOf);
    SortKeepsSum(days, DueOf(hourlyRate), stamp);
    SumDue(days, hourlyRate);
  }

  /** Stamps that put the 1st of a month before any later day. */
  function HalfMonthStamp(k: DateKey): string
  {
    if k.date == 1 then "a" else "b"
  }

  lemma PeriodCodeExample(k: DateKey)
    requires k.year == 2021 && k.month == 7
    ensures PeriodCode(k) == if k.date == 1 then "aug2021a" else "aug2021b"
  {
    assert NatToString(2021) == "2021" by {
      assert NatToString(2) == "2";
      assert NatToString(20) == NatToString(2) + "0";
      assert NatToString(202) == NatToString(20) + "2";
    }
    assert YearString(2021) == "2021";
    assert Lower("Aug2021b") == "aug2021b";
    assert Lower("Aug2021a") == "aug2021a";
  }

  lemma SortTwoExample(a: DailyEntry, b: DailyEntry)
    requires a.dateStarted.date == 16 && b.dateStarted.date == 1
    ensures AscendingDailyEntries([a, b], HalfMonthStamp) == [b, a]
  {
    assert [a, b][..1] == [a];
    assert [a][..0] == [];
    assert AscendingDailyEntries([a], HalfMonthStamp) == [a];
    assert StrLess(DayStamp(HalfMonthStamp, b), DayStamp(HalfMonthStamp, a));
    assert Insert([a], b, HalfMonthStamp) == Insert([], b, HalfMonthStamp) + [a];
  }

  /**
   * The period is not taken from the earliest day: with the 16th given before the
   * 1st, the code names the second half of the month although the first row is the 1st.
   */
  lemma PeriodFromFirstGivenDay(a: DailyEntry, b: DailyEntry, today: DateKey)
    requires a.dateStarted == DateKey(2021, 7, 16) && b.dateStarted == DateKey(2021, 7, 1)
    ensures InvoicePeriod([a, b], today) == "aug2021b"
    ensures PeriodCode(AscendingDailyEntries([a, b], HalfMonthStamp)[0].dateStarted) == "aug2021a"
  {
    PeriodCodeExample(a.dateStarted);
    PeriodCodeExample(b.dateStarted);
    SortTwoExample(a, b);
  }
}
