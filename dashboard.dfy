/**
 * The dashboard page (pages/dashboard.tsx): the weekly date range the report is
 * fetched for, its navigation one week back or forward, the period kind the user
 * picks, and the figures derived from the fetched report (total time, earnings,
 * tax withheld, and each day's net-pay badge).
 *
 * Instants are whole milliseconds since 1970-01-01T00:00:00Z; all week arithmetic
 * is in UTC, where every day has exactly 86 400 000 ms.
 */
module Dashboard {
  import opened Opt
  import opened Entries
  import Duration
  import Earnings
  import LegacyEarnings

  const DayMs: int := 86_400_000
  const WeekMs: int := 7 * DayMs

  /** The day-of-week of an instant in UTC, 0 for Sunday; 1970-01-01 was a Thursday. */
  function Weekday(t: int): (w: int)
    ensures 0 <= w < 7
  {
    (t / DayMs + 4) % 7
  }

  /** 1970-01-01, the first day of the epoch, was a Thursday. */
  lemma EpochIsThursday()
    ensures Weekday(0) == 4 && Weekday(DayMs - 1) == 4 && Weekday(-1) == 3
  {
  }

  /** The next day's weekday follows, Saturday (6) wrapping round to Sunday (0). */
  lemma WeekdayNextDay(t: int)
    ensures Weekday(t + DayMs) == (Weekday(t) + 1) % 7
  {
    var n, r := t / DayMs, t % DayMs;
    assert t + DayMs == (n + 1) * DayMs + r;
    DayNumberOfMultiple(n + 1, r);
  }

  /** The number of whole UTC days since the epoch, counting down for earlier instants. */
  function DayNumber(t: int): int
  {
    t / DayMs
  }

  lemma DayNumberOfMultiple(n: int, r: int)
    requires 0 <= r < DayMs
    ensures DayNumber(n * DayMs + r) == n
  {
  }

  /** `dayjs(t).utc().startOf("week")`: Sunday 00:00:00.000 UTC of the week holding `t`. */
  function StartOfWeekUtc(t: int): (s: int)
    ensures s % DayMs == 0 && Weekday(s) == 0
    ensures s <= t < s + WeekMs
    ensures DayNumber(t) - DayNumber(s) == Weekday(t)
  {
    var n := DayNumber(t);
    var w := Weekday(t);
    DayNumberOfMultiple(n - w, 0);
    (n - w) * DayMs
  }

  /** `dayjs(t).utc().endOf("week")`: Saturday 23:59:59.999 UTC of the week holding `t`. */
  function EndOfWeekUtc(t: int): int
  {
    StartOfWeekUtc(t) + WeekMs - 1
  }

  /** The range of dates the report is fetched for, both bounds inclusive. */
  datatype Span = Span(start: int, end: int)

  predicate Contains(r: Span, t: int)
  {
    r.start <= t <= r.end
  }

  /**
   * The initial range: the Sunday-start week moved one day later. It spans one
   * week less 1 ms, and it starts one day after a Sunday midnight at most a week
   * before now.
   */
  function InitialRange(now: int): (r: Span)
    ensures r.end - r.start == WeekMs - 1
    ensures r.start - DayMs <= now < r.start - DayMs + WeekMs
  {
    Span(StartOfWeekUtc(now) + DayMs, EndOfWeekUtc(now) + DayMs)
  }

  /**
   * A range moved by a whole number of weeks (negative: back in time): its length
   * is kept, and moving by no weeks leaves it as it was.
   */
  function Shift(r: Span, weeks: int): (s: Span)
    ensures s.end - s.start == r.end - r.start
    ensures weeks == 0 ==> s == r
    ensures weeks > 0 ==> s.start > r.start && s.end > r.end
    ensures weeks < 0 ==> s.start < r.start && s.end < r.end
  {
    Span(r.start + weeks * WeekMs, r.end + weeks * WeekMs)
  }

  /** A range that starts on a Monday at 00:00 UTC and ends one week later, less 1 ms. */
  predicate MondayWeek(r: Span)
  {
    r.start % DayMs == 0 && Weekday(r.start) == 1 && r.end - r.start == WeekMs - 1
  }

  /**
   * The initial range runs from Monday 00:00:00.000 to the following Sunday
   * 23:59:59.999 UTC.
   */
  lemma InitialRangeIsMondayWeek(now: int)
    ensures MondayWeek(InitialRange(now))
    ensures InitialRange(now).end % DayMs == DayMs - 1 && Weekday(InitialRange(now).end) == 0
  {
    var s := StartOfWeekUtc(now);
    DayNumberOfMultiple(DayNumber(s), 0);
    DayNumberOfMultiple(DayNumber(s) + 1, 0);
    DayNumberOfMultiple(DayNumber(s) + 7, DayMs - 1);
  }

  /**
   * The initial range holds the current instant exactly when today is not a
   * Sunday; otherwise the range begins at the next midnight.
   */
  lemma InitialRangeContainsNow(now: int)
    ensures Contains(InitialRange(now), now) <==> Weekday(now) != 0
    ensures Weekday(now) == 0 ==> InitialRange(now).start == (DayNumber(now) + 1) * DayMs
  {
    var s := StartOfWeekUtc(now);
    DayNumberOfMultiple(DayNumber(s), 0);
    assert now - now % DayMs == DayNumber(now) * DayMs;
  }

  /** Moving forward one week and back again (or back and forward) restores the range. */
  lemma ShiftRoundTrip(r: Span)
    ensures Shift(Shift(r, 1), -1) == r && Shift(Shift(r, -1), 1) == r
  {
  }

  /** Moving by a whole number of weeks keeps a Monday-to-Sunday range one. */
  lemma ShiftKeepsMondayWeek(r: Span, weeks: int)
    requires MondayWeek(r)
    ensures MondayWeek(Shift(r, weeks))
  {
    var n := DayNumber(r.start);
    DayNumberOfMultiple(n, 0);
    DayNumberOfMultiple(n + 7 * weeks, 0);
    assert r.start == n * DayMs;
    assert r.start + weeks * WeekMs == (n + 7 * weeks) * DayMs;
  }

  /** An instant is in the moved range exactly when it is one week-shift away from the original. */
  lemma ShiftContains(r: Span, weeks: int, t: int)
    ensures Contains(Shift(r, weeks), t) <==> Contains(r, t - weeks * WeekMs)
  {
  }

  datatype Period = SemiMonthly | Weekly

  /** The page's `period` and `range` state. */
  class DashboardState {
    var period: Period
    var start: int
    var end: int

    function Range(): Span
      reads this
    {
      Span(start, end)
    }

    predicate Valid()
      reads this
    {
      MondayWeek(Range())
    }

    /** The state as the page first renders it at instant `now`. */
    constructor(now: int)
      ensures period == Weekly && Range() == InitialRange(now)
      ensures Valid()
    {
      InitialRangeIsMondayWeek(now);
      period := Weekly;
      start := StartOfWeekUtc(now) + DayMs;
      end := EndOfWeekUtc(now) + DayMs;
    }

    /** onNextRange: both bounds one week later. */
    method NextRange()
      requires Valid()
      modifies this
      ensures Range() == Shift(old(Range()), 1) && period == old(period)
      ensures Valid()
    {
      ShiftKeepsMondayWeek(Range(), 1);
      start := start + WeekMs;
      end := end + WeekMs;
    }

    /** onPrevRange: both bounds one week earlier. */
    method PrevRange()
      requires Valid()
      modifies this
      ensures Range() == Shift(old(Range()), -1) && period == old(period)
      ensures Valid()
    {
      ShiftKeepsMondayWeek(Range(), -1);
      start := start - WeekMs;
      end := end - WeekMs;
    }

    /** setPeriod from the selector: only the kind is stored, the range stays. */
    method SetPeriod(p: Period)
      requires Valid()
      modifies this
      ensures period == p && Range() == old(Range())
      ensures Valid()
    {
      period := p;
    }
  }

  /** Moving forward and then back leaves the page state as it was. */
  method NextThenPrev(d: DashboardState)
    requires d.Valid()
    modifies d
    ensures d.Range() == old(d.Range()) && d.period == old(d.period) && d.Valid()
  {
    d.NextRange();
    d.PrevRange();
    ShiftRoundTrip(old(d.Range()));
  }

  // ---------------------------------------------------------------------------
  // Figures derived from the report

  /** `report?.totals[0]?.totalTime || 0`: a missing total counts as zero seconds. */
  function TotalSeconds(totalTime: Option<real>): real
  {
    match totalTime
    case None => 0.0
    case Some(t) => t
  }

  /**
   * `calculatedEarnings` of reportStats: pay for the total hours at the default
   * deduction, computed once over the aggregate. Tax and net pay add up to the
   * gross pay for the total hours, and the tax is the default 2% of that gross.
   */
  function ReportPay(totalTime: Option<real>, hourlyRate: real): (e: Earnings.EarningsResult)
    ensures var gross := TotalSeconds(totalTime) / 3600.0 * hourlyRate;
      e.taxWithheld + e.totalEarnings == gross && e.taxWithheld == gross * Earnings.DefaultTaxDeductionPercent
  {
    Earnings.CalculateEarnings(Duration.ConvertSecondsToHours(TotalSeconds(totalTime)), hourlyRate)
  }

  datatype ReportStats = ReportStats(totalTime: string, totalEarnings: real, taxWithheld: real)

  /**
   * reportStats: the "Total Time", "Total Earnings" and "Tax Withheld" figures.
   * The earnings and the tax add up to the gross pay for the total hours, and a
   * non-negative total reads back as its whole hours, minutes and seconds.
   */
  function ComputeReportStats(totalTime: Option<real>, hourlyRate: real): (r: ReportStats)
    ensures r.totalEarnings + r.taxWithheld == TotalSeconds(totalTime) / 3600.0 * hourlyRate
    ensures r.taxWithheld == TotalSeconds(totalTime) / 3600.0 * hourlyRate * Earnings.DefaultTaxDeductionPercent
    ensures TotalSeconds(totalTime) >= 0.0 ==>
      Duration.ParseDuration(r.totalTime) == Some(Duration.Fields(TotalSeconds(totalTime)))
  {
    var pay := ReportPay(totalTime, hourlyRate);
    ReportStats(
      Duration.FormatDecimalTimeToDuration(TotalSeconds(totalTime), Duration.Seconds),
      pay.totalEarnings,
      pay.taxWithheld)
  }

  /** With no report yet the figures are those of zero seconds: "00:00:00" and no pay. */
  lemma MissingTotalIsZero(hourlyRate: real)
    ensures ComputeReportStats(None, hourlyRate) == ComputeReportStats(Some(0.0), hourlyRate)
    ensures ComputeReportStats(None, hourlyRate) == ReportStats("00:00:00", 0.0, 0.0)
  {
    var none := ComputeReportStats(None, hourlyRate);
    var zero := ComputeReportStats(Some(0.0), hourlyRate);
    assert none.totalTime == zero.totalTime == "00:00:00" by {
      Duration.ExampleZero(Duration.Seconds, Duration.Colons);
    }
    assert none.totalEarnings == zero.totalEarnings == 0.0 && none.taxWithheld == zero.taxWithheld == 0.0 by {
      assert ReportPay(None, hourlyRate) == ReportPay(Some(0.0), hourlyRate) == Earnings.CalculateEarnings(0.0, hourlyRate);
    }
  }

  /** The figures agree with the older seconds-based earnings helper. */
  lemma ReportPayMatchesLegacy(seconds: real, hourlyRate: real)
    ensures var s, l := ReportPay(Some(seconds), hourlyRate), LegacyEarnings.CalculateEarnings(seconds, hourlyRate);
      s.totalEarnings == l.totalEarnings && s.taxWithheld == l.taxWithheld
  {
  }

  /** The dashboard's day list: the report's entries grouped by day, none when there is no report. */
  function DashboardDays(timeEntries: Option<seq<TimeEntry>>, dateOf: int -> DateKey): (days: seq<DailyEntry>)
    ensures timeEntries.None? ==> days == []
    ensures timeEntries.Some? ==> SumDayHours(days) == TotalHours(timeEntries.value)
  {
    match timeEntries
    case None => DailyEntries([], dateOf)
    case Some(es) =>
      DaysPreserveHours(es, dateOf);
      DailyEntries(es, dateOf)
  }

  /**
   * A day's badge: the net pay for that day's hours at the default deduction,
   * that is the hours times the rate times 0.98.
   */
  function DayBadge(hourlyRate: real): (badge: DailyEntry -> real)
    ensures forall d :: badge(d) == d.totalDayHours * (hourlyRate * (1.0 - Earnings.DefaultTaxDeductionPercent))
  {
    NetPayIsProportional(hourlyRate);
    (d: DailyEntry) => Earnings.CalculateEarnings(d.totalDayHours, hourlyRate).totalEarnings
  }

  /** At a fixed rate the net pay is proportional to the hours. */
  lemma NetPayIsProportional(hourlyRate: real)
    ensures forall h :: Earnings.CalculateEarnings(h, hourlyRate).totalEarnings
                     == h * (hourlyRate * (1.0 - Earnings.DefaultTaxDeductionPercent))
  {
    forall h
      ensures Earnings.CalculateEarnings(h, hourlyRate).totalEarnings
           == h * (hourlyRate * (1.0 - Earnings.DefaultTaxDeductionPercent))
    {
      NetPayOfHours(h, hourlyRate);
    }
  }

  /**
   * In exact arithmetic the day badges add up to the net pay computed once over
   * all the report's hours.
   */
  lemma BadgesAddUpToNetPay(es: seq<TimeEntry>, dateOf: int -> DateKey, hourlyRate: real)
    ensures SumOver(DailyEntries(es, dateOf), DayBadge(hourlyRate))
         == Earnings.CalculateEarnings(TotalHours(es), hourlyRate).totalEarnings
  {
    var days := DailyEntries(es, dateOf);
    BadgesAddUp(days, hourlyRate);
    DaysPreserveHours(es, dateOf);
  }

  /** The badges of any days add up to the net pay for the days' summed hours. */
  lemma BadgesAddUp(days: seq<DailyEntry>, hourlyRate: real)
    ensures SumOver(days, DayBadge(hourlyRate)) == Earnings.CalculateEarnings(SumDayHours(days), hourlyRate).totalEarnings
  {
    var k := hourlyRate * (1.0 - Earnings.DefaultTaxDeductionPercent);
    assert SumOver(days, DayBadge(hourlyRate)) == SumDayHours(days) * k by {
      SumOverProportional(days, DayBadge(hourlyRate), k);
    }
    NetPayOfHours(SumDayHours(days), hourlyRate);
  }

  lemma NetPayOfHours(hours: real, hourlyRate: real)
    ensures hours * (hourlyRate * (1.0 - Earnings.DefaultTaxDeductionPercent))
         == Earnings.CalculateEarnings(hours, hourlyRate).totalEarnings
  {
  }
}
