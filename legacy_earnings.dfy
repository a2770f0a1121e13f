/**
 * The older earnings helper (lib/earnings-helper.ts): it takes seconds rather than
 * hours and returns only the tax withheld and the net pay, not the gross.
 */
module LegacyEarnings {
  import LegacyDuration
  import Earnings

  const DefaultTaxDeductionPercent: real := 0.02

  datatype LegacyEarningsResult = LegacyEarningsResult(taxWithheld: real, totalEarnings: real)

  /** calculateEarnings(seconds, hourlyRate, taxDeductionPercent = 0.02). */
  function CalculateEarnings(seconds: real, hourlyRate: real, taxDeductionPercent: real := DefaultTaxDeductionPercent): (r: LegacyEarningsResult)
    ensures var e := Earnings.CalculateEarnings(seconds / 3600.0, hourlyRate, taxDeductionPercent);
      r.taxWithheld == e.taxWithheld && r.totalEarnings == e.totalEarnings
    ensures r.taxWithheld + r.totalEarnings == seconds / 3600.0 * hourlyRate
  {
    var hoursWorked := LegacyDuration.ConvertSecondsToHours(seconds);
    var earnings := hoursWorked * hourlyRate;
    var taxWithheld := earnings * taxDeductionPercent;
    LegacyEarningsResult(taxWithheld, earnings - taxWithheld)
  }

  /** Both helpers default to the same 2% deduction. */
  lemma SameDefault(seconds: real, hourlyRate: real)
    ensures var e := Earnings.CalculateEarnings(seconds / 3600.0, hourlyRate);
      CalculateEarnings(seconds, hourlyRate) == LegacyEarningsResult(e.taxWithheld, e.totalEarnings)
  {
  }
}
