/** The per-category point formulas (losapv13.py: import_iamresponding,
    import_epcr and import_other). Each maps one member's grouped raw
    measurement to points. */
module Scoring {
  import opened Wrappers
  import opened Rounding

  /** Tour of Duty: the summed shift hours are rounded to whole hours, then
      one point per 12 hours, rounded to 2 decimals. No 20-point cap. */
  function TourOfDutyPoints(shiftHours: real): (p: real)
    ensures shiftHours / 12.0 - 0.5 / 12.0 - 0.005 <= p <= shiftHours / 12.0 + 0.5 / 12.0 + 0.005
  {
    var hours := RoundHalfEven(shiftHours);
    assert Pow10(2) == 100;
    RoundTo(hours as real / 12.0, 2)
  }

  /** Whole 12-hour shifts earn exactly one point each. */
  lemma TourOfDutyWholeShifts(shifts: int)
    ensures TourOfDutyPoints(12.0 * shifts as real) == shifts as real
  {
    RoundHalfEvenUnique((12 * shifts) as real, 12 * shifts);
    assert 12.0 * shifts as real == (12 * shifts) as real;
    RoundToWhole(shifts, 2);
  }

  /** Half a point per row of the response log. No 25-point cap. */
  function CallsPoints(count: nat): (p: real)
    ensures 2.0 * p == count as real
  {
    count as real / 2.0
  }

  /** Disability: summed points clipped from above at 5.0 (`clip(upper=5.0)`;
      there is no lower clip). */
  function DisabilityPoints(sum: real): (p: real)
    ensures p <= 5.0 && p <= sum
    ensures p == sum || p == 5.0
  {
    if sum > 5.0 then 5.0 else sum
  }

  lemma DisabilityExamples()
    ensures DisabilityPoints(7.5) == 5.0
    ensures DisabilityPoints(3.0) == 3.0
  {
  }

  /** SR_Total: the self-reported signup hours over 12, rounded to 3
      decimals, plus half the self-reported calls; an empty cell counts 0. */
  function SelfReportedPoints(signupHours: Option<real>, calls: Option<real>): (p: real)
    ensures var exact := signupHours.GetOr(0.0) / 12.0 + calls.GetOr(0.0) / 2.0;
      exact - 0.0005 <= p <= exact + 0.0005
  {
    assert Pow10(3) == 1000;
    var signup := RoundTo(signupHours.GetOr(0.0) / 12.0, 3);
    signup + calls.GetOr(0.0) / 2.0
  }
}
