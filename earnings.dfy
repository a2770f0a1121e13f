/**
 * Earnings (lib/helpers/earnings-helper.ts): gross pay for a number of hours at
 * an hourly rate, the tax withheld from it at a flat percentage (2% unless
 * given), and the net pay that remains. There is no input validation.
 */
module Earnings {
  const DefaultTaxDeductionPercent: real := 0.02

  datatype EarningsResult = EarningsResult(earnings: real, taxWithheld: real, totalEarnings: real)

  /** calculateEarnings(hours, hourlyRate, taxDeductionPercent = 0.02). */
  function CalculateEarnings(hours: real, hourlyRate: real, taxDeductionPercent: real := DefaultTaxDeductionPercent): (r: EarningsResult)
    ensures r.earnings == hours * hourlyRate
    ensures r.taxWithheld == r.earnings * taxDeductionPercent
    ensures r.taxWithheld + r.totalEarnings == r.earnings
    ensures r.totalEarnings == hours * hourlyRate * (1.0 - taxDeductionPercent)
    ensures hours >= 0.0 && hourlyRate >= 0.0 && 0.0 <= taxDeductionPercent <= 1.0 ==>
      0.0 <= r.taxWithheld <= r.earnings && 0.0 <= r.totalEarnings <= r.earnings
  {
    var earnings := hours * hourlyRate;
    var taxWithheld := earnings * taxDeductionPercent;
    FractionBounds(hours, hourlyRate, taxDeductionPercent);
    EarningsResult(earnings, taxWithheld, earnings - taxWithheld)
  }

  lemma FractionBounds(x: real, y: real, p: real)
    ensures x >= 0.0 && y >= 0.0 && 0.0 <= p <= 1.0 ==> 0.0 <= x * y * p <= x * y
  {
    if x >= 0.0 && y >= 0.0 && 0.0 <= p <= 1.0 {
      assert x * y >= 0.0;
      assert x * y * p <= x * y * 1.0;
    }
  }

  /** Ten hours at 500 with the default rate: 5000 gross, 100 withheld, 4900 net. */
  lemma DefaultExample()
    ensures CalculateEarnings(10.0, 500.0) == EarningsResult(5000.0, 100.0, 4900.0)
  {
  }

  lemma ZeroHours(hourlyRate: real, taxDeductionPercent: real)
    ensures CalculateEarnings(0.0, hourlyRate, taxDeductionPercent) == EarningsResult(0.0, 0.0, 0.0)
  {
  }

  lemma NoTax(hours: real, hourlyRate: real)
    ensures CalculateEarnings(hours, hourlyRate, 0.0).totalEarnings == CalculateEarnings(hours, hourlyRate, 0.0).earnings
  {
  }

  /**
   * Earnings are additive in the hours: computing them per part and adding gives
   * what computing them once over the summed hours gives (in exact arithmetic).
   */
  lemma Additive(h1: real, h2: real, hourlyRate: real, taxDeductionPercent: real)
    ensures var a, b, c := CalculateEarnings(h1, hourlyRate, taxDeductionPercent),
                           CalculateEarnings(h2, hourlyRate, taxDeductionPercent),
                           CalculateEarnings(h1 + h2, hourlyRate, taxDeductionPercent);
      c.earnings == a.earnings + b.earnings
      && c.taxWithheld == a.taxWithheld + b.taxWithheld
      && c.totalEarnings == a.totalEarnings + b.totalEarnings
  {
    assert (h1 + h2) * hourlyRate == h1 * hourlyRate + h2 * hourlyRate;
    assert (h1 * hourlyRate + h2 * hourlyRate) * taxDeductionPercent
        == h1 * hourlyRate * taxDeductionPercent + h2 * hourlyRate * taxDeductionPercent;
  }
}
