/** Contract durations, stored as the string "<magnitude> <unit>": the unit বছর (year)
    and মাস (month), any other unit counting days. */
module Durations {
  import opened Wrappers
  import opened Text
  import opened Calendar

  const YearUnit: string := "বছর"
  const MonthUnit: string := "মাস"

  /** `d` moved by `n` of `unit`: years for বছর, months for মাস, days for anything else. */
  function AddInUnit(d: Date, n: int, unit: string): (r: Date)
    requires Valid(d)
    ensures Valid(r)
    ensures n > 0 ==> Before(d, r)
    ensures n == 0 ==> r == d
  {
    if unit == YearUnit then
      AddYearsIsTwelveMonths(d, n);
      AddMonthsAdvances(d, 12 * n);
      AddYears(d, n)
    else if unit == MonthUnit then
      AddMonthsAdvances(d, n);
      AddMonths(d, n)
    else AddDays(d, n)
  }

  lemma UnitsHaveNoSpace()
    ensures ' ' !in YearUnit && ' ' !in MonthUnit && YearUnit != "" && MonthUnit != ""
  {
  }

  lemma InYears(d: Date, n: int)
    requires Valid(d)
    ensures AddInUnit(d, n, YearUnit) == AddYears(d, n)
  {
  }

  lemma InMonths(d: Date, n: int)
    requires Valid(d)
    ensures AddInUnit(d, n, MonthUnit) == AddMonths(d, n)
  {
  }

  /** Two moves by years, or two by months, add up when the day needs no clamping. */
  lemma AddInUnitCompose(d: Date, a: int, b: int, unit: string)
    requires Valid(d) && d.day <= 28 && (unit == YearUnit || unit == MonthUnit)
    ensures AddInUnit(AddInUnit(d, a, unit), b, unit) == AddInUnit(d, a + b, unit)
  {
    if unit == YearUnit {
      AddYearsCompose(d, a, b);
    } else {
      AddMonthsCompose(d, a, b);
    }
  }

  /** `duration.split(' ')`. */
  function Parts(duration: string): seq<string> {
    Split(duration, ' ')
  }

  /** `parseInt(parts[0]) || 0`: the magnitude, 0 when it is not a number. */
  function Magnitude(duration: string): (m: int)
    ensures ' ' !in duration ==> m == NumberOrZero(duration)
  {
    if ' ' !in duration then SplitNoSeparator(duration, ' '); NumberOrZero(Parts(duration)[0])
    else NumberOrZero(Parts(duration)[0])
  }

  /** `parts[1]`: the unit, undefined when the duration has no space. */
  function UnitOf(duration: string): (u: Option<string>)
    ensures u.None? <==> ' ' !in duration
    ensures u.Some? ==> ' ' !in u.value
  {
    JoinSplit(duration, ' ');
    if ' ' !in duration then SplitNoSeparator(duration, ' '); PartAt(Parts(duration), 1)
    else PartAt(Parts(duration), 1)
  }

  /** The string "<n> <unit>" for a whole number n. */
  function Format(n: int, unit: string): string {
    IntToString(n) + " " + unit
  }

  /** Reading back a formatted duration gives its magnitude and its unit. */
  lemma FormatRoundTrip(n: int, unit: string)
    requires ' ' !in unit
    ensures Magnitude(Format(n, unit)) == n
    ensures UnitOf(Format(n, unit)) == Some(unit)
  {
    SplitPair(IntToString(n), unit);
    ParseIntToString(n, "");
    assert IntToString(n) + "" == IntToString(n);
  }
}
