/**
 * The final calculation of main.py: the guard on the time range, the
 * worst-case substitution for a missing device probability, the combined
 * probability, impact and risk, the geometric interpolation between the two
 * range ends, and the rendering of the resulting number of hours as months,
 * days, hours and minutes.
 *
 * Python's real power `x ** y` with a non-integer exponent has no counterpart
 * over Dafny's `real`, so the calculation takes it as a parameter `rpow`; the
 * lemmas about the result assume of it only the laws `PowLaws` states.
 */
module Cryptoperiod {
  import opened Text
  import SharedFunctions
  import ImportDevices
  import ParametersUi
  import Seqs

  // ----- display_time_difference -----

  /** A number of hours split into whole months, days, hours and minutes. */
  datatype Duration = Duration(months: int, days: int, hours: int, minutes: int)

  /** Hours in a month of 30 days. */
  const HoursPerMonth: int := 30 * 24

  /**
   * `hours // 720`, then `hours %= 720`, `// 24`, `%= 24`, and `int()` of the
   * whole hours and of the minutes in the fraction that is left.
   */
  function Decompose(h: real): Duration
  {
    var months := (h / HoursPerMonth as real).Floor;
    var inMonth := h - (HoursPerMonth * months) as real;
    var days := (inMonth / 24.0).Floor;
    var inDay := inMonth - (24 * days) as real;
    var minutes := (inDay - SharedFunctions.Trunc(inDay) as real) * 60.0;
    Duration(months, days, SharedFunctions.Trunc(inDay), SharedFunctions.Trunc(minutes))
  }

  /** The hours a duration stands for, minutes included. */
  function TotalHours(d: Duration): real
  {
    (HoursPerMonth * d.months + 24 * d.days + d.hours) as real + d.minutes as real / 60.0
  }

  /** Months are `⌊h / 720⌋` and the smaller units stay below their next unit. */
  lemma DecomposeRanges(h: real)
    ensures var d := Decompose(h);
      d.months == (h / 720.0).Floor && 0 <= d.days <= 29 && 0 <= d.hours <= 23 && 0 <= d.minutes <= 59
    ensures h >= 0.0 ==> Decompose(h).months >= 0
  {
    var months := (h / 720.0).Floor;
    var inMonth := h - (720 * months) as real;
    assert 0.0 <= inMonth < 720.0;
    var days := (inMonth / 24.0).Floor;
    var inDay := inMonth - (24 * days) as real;
    assert 0.0 <= inDay < 24.0;
  }

  /** The parts add up to the input, less a remainder under one minute. */
  lemma DecomposeReconstructs(h: real)
    ensures TotalHours(Decompose(h)) <= h < TotalHours(Decompose(h)) + 1.0 / 60.0
  {
    var months := (h / 720.0).Floor;
    var inMonth := h - (720 * months) as real;
    assert 0.0 <= inMonth < 720.0;
    var days := (inMonth / 24.0).Floor;
    var inDay := inMonth - (24 * days) as real;
    assert 0.0 <= inDay < 24.0;
    var hours := inDay.Floor;
    var frac := inDay - hours as real;
    var minutes := (frac * 60.0).Floor;
    assert minutes as real <= frac * 60.0 < minutes as real + 1.0;
    assert h == (720 * months + 24 * days + hours) as real + frac;
  }

  /** `f"{count} {unit}{'s' if count != 1 else ''}"`. */
  function UnitText(count: int, unit: string): (r: string)
    ensures |r| > 0
  {
    IntToDecimal(count) + " " + unit + (if count != 1 then "s" else "")
  }

  /** A unit not already ending in "s" gets one exactly when the count is not 1. */
  lemma PluralExactlyWhenNotOne(count: int, unit: string)
    requires unit != [] && unit[|unit| - 1] != 's'
    ensures var r := UnitText(count, unit); r[|r| - 1] == 's' <==> count != 1
  {
  }

  /**
   * The parts shown, in order: months if any; days if any, or if there are
   * months and something smaller; hours if any, or if there are days or months
   * and minutes (`and` binds tighter than `or`); minutes if anything is shown.
   */
  function Parts(d: Duration): (r: seq<string>)
    ensures forall i :: 0 <= i < |r| ==> r[i] != []
  {
    (if d.months > 0 then [UnitText(d.months, "month")] else [])
    + (if d.days > 0 || (d.months > 0 && (d.hours > 0 || d.minutes > 0)) then [UnitText(d.days, "day")] else [])
    + (if d.hours > 0 || ((d.days > 0 || d.months > 0) && d.minutes > 0) then [UnitText(d.hours, "hour")] else [])
    + (if d.minutes > 0 || d.hours > 0 || d.days > 0 || d.months > 0 then [UnitText(d.minutes, "minute")] else [])
  }

  /** The text `display_time_difference` returns. */
  function Display(d: Duration): string
  {
    Join(Parts(d), ", ")
  }

  /** The text is empty exactly when no count is positive, and otherwise ends with the minutes. */
  lemma DisplayShape(d: Duration)
    ensures Display(d) == [] <==> d.months <= 0 && d.days <= 0 && d.hours <= 0 && d.minutes <= 0
    ensures Parts(d) != [] ==> Parts(d)[|Parts(d)| - 1] == UnitText(d.minutes, "minute")
  {
  }

  /** For a non-negative number of hours the text is empty exactly when it is under a minute. */
  lemma DisplayEmptyUnderAMinute(h: real)
    requires h >= 0.0
    ensures Display(Decompose(h)) == [] <==> h < 1.0 / 60.0
  {
    var d := Decompose(h);
    DecomposeRanges(h);
    DecomposeReconstructs(h);
    DisplayShape(d);
    if d.months > 0 || d.days > 0 || d.hours > 0 || d.minutes > 0 {
      assert TotalHours(d) >= 1.0 / 60.0;
    }
  }

  /** A whole month shows as "1 month, 0 minutes": days and hours are skipped, the minutes are not. */
  lemma OneMonthExample()
    ensures Display(Decompose(720.0)) == "1 month, 0 minutes"
  {
    var d := Decompose(720.0);
    assert d == Duration(1, 0, 0, 0);
    assert UnitText(1, "month") == "1 month" by { assert IntToDecimal(1) == "1"; }
    assert UnitText(0, "minute") == "0 minutes" by { assert IntToDecimal(0) == "0"; }
    assert Parts(d) == ["1 month", "0 minutes"];
    assert Join(["1 month", "0 minutes"], ", ") == "1 month" + ", " + Join(["0 minutes"], ", ");
  }

  /** 25.5 hours show as "1 day, 1 hour, 30 minutes". */
  lemma DayAndAHalfHourExample()
    ensures Display(Decompose(25.5)) == "1 day, 1 hour, 30 minutes"
  {
    DayAndAHalfHourDecomposes();
    DayHourMinutesParts();
    var parts := ["1 day", "1 hour", "30 minutes"];
    assert parts[1..] == ["1 hour", "30 minutes"] && parts[1..][1..] == ["30 minutes"];
    assert Join(parts[1..][1..], ", ") == "30 minutes";
  }

  lemma DayAndAHalfHourDecomposes()
    ensures Decompose(25.5) == Duration(0, 1, 1, 30)
  {
  }

  lemma DayHourMinutesParts()
    ensures Parts(Duration(0, 1, 1, 30)) == ["1 day", "1 hour", "30 minutes"]
  {
    assert UnitText(1, "day") == "1 day" by { assert IntToDecimal(1) == "1"; }
    assert UnitText(1, "hour") == "1 hour" by { assert IntToDecimal(1) == "1"; }
    assert UnitText(30, "minute") == "30 minutes" by {
      assert NatToDecimal(3) == "3";
      assert NatToDecimal(30) == NatToDecimal(3) + [DigitChar(0)];
      assert IntToDecimal(30) == "30";
    }
  }

  /** `display_time_difference(hours)`, step by step as the source reassigns `hours`. */
  method DisplayTimeDifference(hours: real) returns (s: string)
    ensures s == Display(Decompose(hours))
  {
    var h := hours;
    var months := (h / HoursPerMonth as real).Floor;
    h := h - (HoursPerMonth * months) as real;
    var days := (h / 24.0).Floor;
    h := h - (24 * days) as real;
    var minutesLeft := (h - SharedFunctions.Trunc(h) as real) * 60.0;
    var wholeHours := SharedFunctions.Trunc(h);
    var minutes := SharedFunctions.Trunc(minutesLeft);
    assert Duration(months, days, wholeHours, minutes) == Decompose(hours);
    var result: seq<string> := [];
    if months > 0 {
      result := result + [UnitText(months, "month")];
    }
    if days > 0 || (months > 0 && (wholeHours > 0 || minutes > 0)) {
      result := result + [UnitText(days, "day")];
    }
    if wholeHours > 0 || ((days > 0 || months > 0) && minutes > 0) {
      result := result + [UnitText(wholeHours, "hour")];
    }
    if minutes > 0 || wholeHours > 0 || days > 0 || months > 0 {
      result := result + [UnitText(minutes, "minute")];
    }
    assert result == Parts(Duration(months, days, wholeHours, minutes));
    s := Join(result, ", ");
  }

  // ----- show_results -----

  /** `empty_import(isNotEmpty)`: asks only when there are no devices and the dialog is still enabled. */
  function EmptyImport(isNotEmpty: bool, showMessageBox: bool, reply: bool): (proceed: bool)
    ensures isNotEmpty || !showMessageBox ==> proceed
    ensures !proceed <==> !isNotEmpty && showMessageBox && !reply
  {
    if !isNotEmpty && showMessageBox then reply else true
  }

  /** A device probability of 0 (no devices) is read as certain compromise. */
  function WorstCaseProbability(deviceProbability: real): (p: real)
    ensures deviceProbability == 0.0 ==> p == 1.0
    ensures deviceProbability != 0.0 ==> p == deviceProbability
  {
    if deviceProbability == 0.0 then 1.0 else deviceProbability
  }

  /** `1 - (1 - deviceProbability) * (1 - policy)`: compromise through either channel. */
  function CombinedProbability(deviceProbability: real, policy: real): real
  {
    1.0 - (1.0 - deviceProbability) * (1.0 - policy)
  }

  lemma CombinedProbabilityBounds(p: real, policy: real)
    requires 0.0 <= p <= 1.0 && 0.0 <= policy <= 1.0
    ensures p <= CombinedProbability(p, policy) <= 1.0
    ensures policy <= CombinedProbability(p, policy)
    ensures p == 1.0 || policy == 1.0 ==> CombinedProbability(p, policy) == 1.0
  {
    var q := (1.0 - p) * (1.0 - policy);
    Seqs.ScaleInUnit(1.0 - p, 1.0 - policy);
    Seqs.ScaleInUnit(1.0 - policy, 1.0 - p);
    assert 0.0 <= q <= 1.0 - p;
    assert q <= 1.0 - policy;
    assert CombinedProbability(p, policy) == 1.0 - q;
  }

  /**
   * The laws of `x ** y` the calculation relies on: a base of at least 1 to an
   * exponent in [0, 1] stays between 1 and the base; a base in [0, 1] to a
   * non-negative exponent stays in [0, 1]; the exponents 1 and 0 give the base
   * and 1.
   */
  ghost predicate PowLaws(rpow: (real, real) -> real)
  {
    (forall x, y :: 1.0 <= x && 0.0 <= y <= 1.0 ==> 1.0 <= rpow(x, y) <= x)
    && (forall x, y :: 0.0 <= x <= 1.0 && 0.0 <= y ==> 0.0 <= rpow(x, y) <= 1.0)
    && (forall x :: rpow(x, 1.0) == x && rpow(x, 0.0) == 1.0)
  }

  /** The laws can be met: a power that keeps the base for every exponent but 0 meets them. */
  lemma PowLawsSatisfiable()
    ensures PowLaws((x: real, y: real) => if y == 0.0 then 1.0 else x)
  {
  }

  /** `impact * information ** (1 - impact ** (1/3))`. */
  function TotalImpact(impact: real, information: real, rpow: (real, real) -> real): real
  {
    impact * rpow(information, 1.0 - rpow(impact, 1.0 / 3.0))
  }

  /** Impact and information in [0, 1] give a total impact between 0 and the impact. */
  lemma TotalImpactInUnit(impact: real, information: real, rpow: (real, real) -> real)
    requires 0.0 <= impact <= 1.0 && 0.0 <= information <= 1.0
    requires PowLaws(rpow)
    ensures 0.0 <= TotalImpact(impact, information, rpow) <= impact
  {
    var e := rpow(impact, 1.0 / 3.0);
    assert 0.0 <= e <= 1.0;
    var f := rpow(information, 1.0 - e);
    assert 0.0 <= f <= 1.0;
    Seqs.ScaleInUnit(impact, f);
    assert TotalImpact(impact, information, rpow) == impact * f;
  }

  /** `probability * impact`. */
  function FinalRisk(probability: real, impact: real): real
  {
    probability * impact
  }

  lemma FinalRiskInUnit(probability: real, impact: real)
    requires 0.0 <= probability <= 1.0 && 0.0 <= impact <= 1.0
    ensures 0.0 <= FinalRisk(probability, impact) <= probability
    ensures FinalRisk(probability, impact) <= impact
  {
    var r := FinalRisk(probability, impact);
    Seqs.MulInUnit(probability, impact);
    assert r <= impact;
  }

  /** `timeRange1 * (timeRange2 / timeRange1) ** (1 - finalRisk)`. */
  function CryptoperiodHours(timeRange1: int, timeRange2: int, finalRisk: real, rpow: (real, real) -> real): real
    requires timeRange1 != 0
  {
    timeRange1 as real * rpow(timeRange2 as real / timeRange1 as real, 1.0 - finalRisk)
  }

  /** No risk keeps the maximum, full risk falls to the minimum. */
  lemma CryptoperiodEndpoints(timeRange1: int, timeRange2: int, rpow: (real, real) -> real)
    requires timeRange1 != 0 && PowLaws(rpow)
    ensures CryptoperiodHours(timeRange1, timeRange2, 0.0, rpow) == timeRange2 as real
    ensures CryptoperiodHours(timeRange1, timeRange2, 1.0, rpow) == timeRange1 as real
  {
  }

  /** For a risk in [0, 1] the period stays between the two ends of the range. */
  lemma CryptoperiodWithinRange(timeRange1: int, timeRange2: int, finalRisk: real, rpow: (real, real) -> real)
    requires 0 < timeRange1 <= timeRange2
    requires 0.0 <= finalRisk <= 1.0
    requires PowLaws(rpow)
    ensures timeRange1 as real <= CryptoperiodHours(timeRange1, timeRange2, finalRisk, rpow) <= timeRange2 as real
  {
    var t1 := timeRange1 as real;
    var ratio := timeRange2 as real / t1;
    assert 1.0 <= ratio;
    var f := rpow(ratio, 1.0 - finalRisk);
    assert 1.0 <= f <= ratio;
    assert t1 * ratio == timeRange2 as real;
    assert t1 * 1.0 <= t1 * f <= t1 * ratio;
  }

  /** What `show_results` ends in. */
  datatype Outcome =
    | RangeError
    | Declined
    | Computed(probability: real, impact: real, finalRisk: real, cryptoperiod: real, display: string)

  /**
   * `show_results` after the two reads: the range guard first, then the
   * answer of `empty_import`, then the formula.
   */
  function ShowResults(deviceProbability: real, isNotEmpty: bool, timeRange1: int, timeRange2: int,
                       impact: real, information: real, policy: real, proceed: bool,
                       rpow: (real, real) -> real): (o: Outcome)
    requires timeRange1 != 0
    ensures o.RangeError? <==> timeRange1 > timeRange2
    ensures o.Declined? <==> timeRange1 <= timeRange2 && !proceed
  {
    if timeRange1 > timeRange2 then RangeError
    else if !proceed then Declined
    else
      var probability := CombinedProbability(WorstCaseProbability(deviceProbability), policy);
      var totalImpact := TotalImpact(impact, information, rpow);
      var finalRisk := FinalRisk(probability, totalImpact);
      var cryptoperiod := CryptoperiodHours(timeRange1, timeRange2, finalRisk, rpow);
      Computed(probability, totalImpact, finalRisk, cryptoperiod, "Old: " + Display(Decompose(cryptoperiod)))
  }

  /**
   * With no devices the probability is 0 and is replaced by certain compromise,
   * so the combined probability is 1; with devices of valid scores it is at
   * least the base rate and is used as it is.
   */
  lemma DeviceProbabilityUsed(devices: seq<ImportDevices.Device>, policy: real)
    requires ImportDevices.ValidScores(devices)
    ensures devices == [] ==> CombinedProbability(WorstCaseProbability(ImportDevices.ImportValues(devices).0), policy) == 1.0
    ensures devices != [] ==> WorstCaseProbability(ImportDevices.ImportValues(devices).0) == ImportDevices.ImportValues(devices).0
  {
    if devices != [] {
      ImportDevices.NonEmptyTotalAtLeastBaseRate(devices);
    } else {
      assert WorstCaseProbability(ImportDevices.ImportValues(devices).0) == 1.0;
      assert CombinedProbability(1.0, policy) == 1.0 - 0.0 * (1.0 - policy);
    }
  }

  /**
   * On valid devices and factors in [0, 1], a computed outcome has its
   * probability in [policy, 1], its impact between 0 and the stored impact, its
   * risk in [0, 1] and below the probability, and a cryptoperiod between the two
   * ends of the range.
   */
  lemma ComputedOutcomeBounds(devices: seq<ImportDevices.Device>, timeRange1: int, timeRange2: int,
                              impact: real, information: real, policy: real, rpow: (real, real) -> real)
    requires ImportDevices.ValidScores(devices)
    requires 0.0 <= policy <= 1.0 && 0.0 <= impact <= 1.0 && 0.0 <= information <= 1.0
    requires PowLaws(rpow)
    requires 0 < timeRange1 <= timeRange2
    ensures var (p, isNotEmpty) := ImportDevices.ImportValues(devices);
      var o := ShowResults(p, isNotEmpty, timeRange1, timeRange2, impact, information, policy, true, rpow);
      o.Computed? && policy <= o.probability <= 1.0 && 0.0 <= o.finalRisk <= o.probability
      && 0.0 <= o.impact <= impact
      && timeRange1 as real <= o.cryptoperiod <= timeRange2 as real
  {
    var (p, isNotEmpty) := ImportDevices.ImportValues(devices);
    DeviceProbabilityUsed(devices, policy);
    if devices != [] {
      ImportDevices.NonEmptyTotalAtLeastBaseRate(devices);
    }
    var used := WorstCaseProbability(p);
    assert 0.0 <= used <= 1.0;
    CombinedProbabilityBounds(used, policy);
    TotalImpactInUnit(impact, information, rpow);
    var probability, totalImpact := CombinedProbability(used, policy), TotalImpact(impact, information, rpow);
    FinalRiskInUnit(probability, totalImpact);
    CryptoperiodWithinRange(timeRange1, timeRange2, FinalRisk(probability, totalImpact), rpow);
  }

  /**
   * `show_results()` on the application's state: reads the device probability,
   * then the time range (which refreshes `timeDifference`), then calculates.
   */
  method ShowResultsOf(session: ImportDevices.ImportSession, values: ParametersUi.Values,
                       window: ParametersUi.TimeWindow, showMessageBox: bool, reply: bool,
                       rpow: (real, real) -> real)
    returns (o: Outcome)
    requires window.timeRange1 != 0
    modifies window
    ensures window.timeRange1 == old(window.timeRange1) && window.timeRange2 == old(window.timeRange2)
    ensures window.Consistent()
    ensures var (p, isNotEmpty) := ImportDevices.ImportValues(session.devices);
      o == ShowResults(p, isNotEmpty, window.timeRange1, window.timeRange2,
                       values.impact, values.information, values.policy,
                       EmptyImport(isNotEmpty, showMessageBox, reply), rpow)
    ensures (values.Valid() && ImportDevices.ValidScores(session.devices) && PowLaws(rpow)
             && window.timeRange1 > 0 && o.Computed?) ==>
        values.policy <= o.probability <= 1.0 && 0.0 <= o.finalRisk <= o.probability
        && 0.0 <= o.impact <= values.impact
        && window.timeRange1 as real <= o.cryptoperiod <= window.timeRange2 as real
  {
    var deviceProbability, isNotEmpty := session.GetImportValues();
    var timeRange1, timeRange2 := window.UpdateTimeDifference();
    if timeRange1 > timeRange2 {
      return RangeError;
    }
    if !EmptyImport(isNotEmpty, showMessageBox, reply) {
      return Declined;
    }
    o := ShowResults(deviceProbability, isNotEmpty, timeRange1, timeRange2,
                     values.impact, values.information, values.policy, true, rpow);
    if values.Valid() && ImportDevices.ValidScores(session.devices) && PowLaws(rpow) && timeRange1 > 0 {
      ComputedOutcomeBounds(session.devices, timeRange1, timeRange2, values.impact, values.information, values.policy, rpow);
    }
  }
}
