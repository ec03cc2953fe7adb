/** Calendar dates standing in for JavaScript `Date` values: a (year, month, day) triple of
    the proleptic Gregorian calendar, a total order, the three ways the ledger moves a date
    (`setFullYear(y + n)`, `setMonth(m + n)`, `setDate(d + n)`), and the ISO 8601 calendar
    date `toISOString().split('T')[0]` with its parser. */
module Calendar {
  import opened Wrappers
  import opened Text

  datatype Date = Date(year: int, month: int, day: int)

  predicate IsLeapYear(y: int) {
    (y % 4 == 0 && y % 100 != 0) || y % 400 == 0
  }

  function DaysInMonth(y: int, m: int): (n: int)
    requires 1 <= m <= 12
    ensures 28 <= n <= 31
  {
    if m == 2 then (if IsLeapYear(y) then 29 else 28)
    else if m == 4 || m == 6 || m == 9 || m == 11 then 30
    else 31
  }

  /** A date that exists in the calendar. */
  predicate Valid(d: Date) {
    1 <= d.month <= 12 && 1 <= d.day <= DaysInMonth(d.year, d.month)
  }

  /** The strict order of dates: `a < b`. */
  predicate Before(a: Date, b: Date) {
    a.year < b.year
    || (a.year == b.year && (a.month < b.month || (a.month == b.month && a.day < b.day)))
  }

  /** `a <= b`. */
  predicate NotAfter(a: Date, b: Date) {
    !Before(b, a)
  }

  /** Months elapsed since January of year 0. */
  function MonthIndex(d: Date): int {
    d.year * 12 + (d.month - 1)
  }

  function Min(a: int, b: int): int {
    if a <= b then a else b
  }

  lemma NotAfterTransitive(a: Date, b: Date, c: Date)
    requires NotAfter(a, b) && NotAfter(b, c)
    ensures NotAfter(a, c)
  {
  }

  /** A later month means a later date, whatever the days. */
  lemma {:induction false} MonthIndexOrder(a: Date, b: Date)
    requires Valid(a) && Valid(b)
    ensures MonthIndex(a) < MonthIndex(b) ==> Before(a, b)
    ensures NotAfter(a, b) ==> MonthIndex(a) <= MonthIndex(b)
  {
    if a.year < b.year {
      assert MonthIndex(a) <= a.year * 12 + 11 < b.year * 12 <= MonthIndex(b);
    } else if a.year > b.year {
      assert MonthIndex(b) <= b.year * 12 + 11 < a.year * 12 <= MonthIndex(a);
    }
  }

  /** `setMonth(getMonth() + n)`: n months later (earlier for negative n). The day is kept,
      or clamped to the last day of a shorter month, where JavaScript would roll the
      excess days over into the following month. */
  function AddMonths(d: Date, n: int): (r: Date)
    requires Valid(d)
    ensures Valid(r) && MonthIndex(r) == MonthIndex(d) + n
    ensures r.day <= d.day && (d.day <= 28 ==> r.day == d.day)
    ensures n == 0 ==> r == d
  {
    var k := MonthIndex(d) + n;
    var y := k / 12;
    var m := k % 12 + 1;
    Date(y, m, Min(d.day, DaysInMonth(y, m)))
  }

  /** `setFullYear(getFullYear() + n)`: the same month n years later. The model clamps
      29 February to 28 February in a year that is not a leap year; JavaScript rolls it over
      to 1 March instead. */
  function AddYears(d: Date, n: int): (r: Date)
    requires Valid(d)
    ensures Valid(r) && MonthIndex(r) == MonthIndex(d) + 12 * n
    ensures r.day <= d.day && (d.day <= 28 ==> r.day == d.day)
    ensures n == 0 ==> r == d
  {
    Date(d.year + n, d.month, Min(d.day, DaysInMonth(d.year + n, d.month)))
  }

  /** Adding years is adding twelve months each. */
  lemma {:induction false} AddYearsIsTwelveMonths(d: Date, n: int)
    requires Valid(d)
    ensures AddYears(d, n) == AddMonths(d, 12 * n)
  {
    var k := MonthIndex(d) + 12 * n;
    assert k == (d.year + n) * 12 + (d.month - 1);
    assert k / 12 == d.year + n && k % 12 == d.month - 1;
  }

  /** Moving a date by months preserves the order of the months involved, and forward
      moves go strictly forward. */
  lemma AddMonthsAdvances(d: Date, n: int)
    requires Valid(d)
    ensures n > 0 ==> Before(d, AddMonths(d, n))
    ensures n < 0 ==> Before(AddMonths(d, n), d)
  {
    MonthIndexOrder(d, AddMonths(d, n));
    MonthIndexOrder(AddMonths(d, n), d);
  }

  /** Two steps of whole years add up when the day needs no clamping. */
  lemma AddYearsCompose(d: Date, a: int, b: int)
    requires Valid(d) && d.day <= 28
    ensures AddYears(AddYears(d, a), b) == AddYears(d, a + b)
  {
  }

  /** Two steps of months add up when the day needs no clamping. */
  lemma {:induction false} AddMonthsCompose(d: Date, a: int, b: int)
    requires Valid(d) && d.day <= 28
    ensures AddMonths(AddMonths(d, a), b) == AddMonths(d, a + b)
  {
    var r1 := AddMonths(AddMonths(d, a), b);
    var r2 := AddMonths(d, a + b);
    MonthIndexDetermines(r1, r2);
  }

  /** A valid date is fixed by its month index and its day. */
  lemma {:induction false} MonthIndexDetermines(a: Date, b: Date)
    requires Valid(a) && Valid(b)
    requires MonthIndex(a) == MonthIndex(b) && a.day == b.day
    ensures a == b
  {
    MonthIndexOrder(a, b);
    MonthIndexOrder(b, a);
  }

  /** The following calendar day. */
  function NextDay(d: Date): (r: Date)
    requires Valid(d)
    ensures Valid(r) && Before(d, r)
  {
    if d.day < DaysInMonth(d.year, d.month) then Date(d.year, d.month, d.day + 1)
    else if d.month < 12 then Date(d.year, d.month + 1, 1)
    else Date(d.year + 1, 1, 1)
  }

  /** The preceding calendar day. */
  function PrevDay(d: Date): (r: Date)
    requires Valid(d)
    ensures Valid(r) && Before(r, d)
  {
    if d.day > 1 then Date(d.year, d.month, d.day - 1)
    else if d.month > 1 then Date(d.year, d.month - 1, DaysInMonth(d.year, d.month - 1))
    else Date(d.year - 1, 12, 31)
  }

  /** `setDate(getDate() + n)`: n calendar days later (earlier for negative n). */
  function AddDays(d: Date, n: int): (r: Date)
    requires Valid(d)
    ensures Valid(r)
    ensures n > 0 ==> Before(d, r)
    ensures n < 0 ==> Before(r, d)
    ensures n == 0 ==> r == d
    decreases if n < 0 then -n else n
  {
    if n == 0 then d
    else if n > 0 then AddDays(NextDay(d), n - 1)
    else AddDays(PrevDay(d), n + 1)
  }

  // ---------------------------------------------------------------- ISO 8601 calendar dates

  /** `s` padded on the left with zeros to at least `width` characters. */
  function PadZeros(s: string, width: nat): (r: string)
    ensures |r| == if |s| < width then width else |s|
    ensures AllDigits(s) ==> AllDigits(r)
    decreases width - |s|
  {
    if |s| >= width then s else PadZeros("0" + s, width)
  }

  /** `toISOString().split('T')[0]`: YYYY-MM-DD for years 0 to 9999, and the expanded
      form with a sign and six year digits outside that range. */
  function IsoDate(d: Date): (s: string)
    requires Valid(d)
    ensures |s| >= 10
    ensures 0 <= d.year <= 9999 ==> |s| == 10 && s[4] == '-' && s[7] == '-' && AllDigits(s[..4])
  {
    assert Pow10(4) == 10000 && Pow10(2) == 100;
    PaddedField(d.month, 2);
    PaddedField(d.day, 2);
    var mm := PadZeros(NatToString(d.month), 2);
    var dd := PadZeros(NatToString(d.day), 2);
    if 0 <= d.year <= 9999 then
      PaddedField(d.year, 4);
      PadZeros(NatToString(d.year), 4) + "-" + mm + "-" + dd
    else (if d.year < 0 then "-" else "+")
         + PadZeros(NatToString(if d.year < 0 then -d.year else d.year), 6) + "-" + mm + "-" + dd
  }

  /** `new Date(s)` for the date strings the forms produce: exactly YYYY-MM-DD naming a day
      of the calendar; anything else is an invalid date (None). */
  function ParseIsoDate(s: string): (r: Option<Date>)
    ensures r.Some? ==> Valid(r.value)
    ensures r.Some? ==> |s| == 10 && s[4] == '-' && s[7] == '-'
  {
    if |s| == 10 && s[4] == '-' && s[7] == '-'
       && AllDigits(s[..4]) && AllDigits(s[5..7]) && AllDigits(s[8..])
    then
      var d := Date(DigitsValue(s[..4]), DigitsValue(s[5..7]), DigitsValue(s[8..]));
      if Valid(d) then Some(d) else None
    else None
  }

  /** Leading zeros do not change the value of a digit string. */
  lemma {:induction false} DigitsValueLeadingZero(s: string)
    requires AllDigits(s)
    ensures AllDigits("0" + s) && DigitsValue("0" + s) == DigitsValue(s)
    decreases |s|
  {
    var z := "0" + s;
    if s != [] {
      assert z[..|z| - 1] == "0" + s[..|s| - 1];
      DigitsValueLeadingZero(s[..|s| - 1]);
    }
  }

  lemma {:induction false} PadZerosValue(s: string, width: nat)
    requires AllDigits(s)
    ensures DigitsValue(PadZeros(s, width)) == DigitsValue(s)
    decreases width - |s|
  {
    if |s| < width {
      DigitsValueLeadingZero(s);
      PadZerosValue("0" + s, width);
    }
  }

  /** A number below 10^k has at most k decimal digits. */
  lemma {:induction false} NatToStringLength(n: nat, k: nat, bound: nat)
    requires bound == Pow10(k) && n < bound && k >= 1
    ensures |NatToString(n)| <= k
  {
    if n >= 10 {
      assert Pow10(1) == 10;
      NatToStringLength(n / 10, k - 1, Pow10(k - 1));
    }
  }

  function Pow10(k: nat): (p: nat)
    ensures p >= 1
  {
    if k == 0 then 1 else 10 * Pow10(k - 1)
  }

  /** A zero-padded field of exactly `width` digits spelling `n`. */
  lemma PaddedField(n: nat, width: nat)
    requires width >= 1 && n < Pow10(width)
    ensures var f := PadZeros(NatToString(n), width);
      |f| == width && AllDigits(f) && DigitsValue(f) == n
  {
    NatToStringLength(n, width, Pow10(width));
    PadZerosValue(NatToString(n), width);
  }

  /** Reading back an ISO date of a four-digit year gives the same date. */
  lemma IsoDateRoundTrip(d: Date)
    requires Valid(d) && 0 <= d.year <= 9999
    ensures ParseIsoDate(IsoDate(d)) == Some(d)
  {
    assert Pow10(4) == 10000 && Pow10(2) == 100;
    PaddedField(d.year, 4);
    PaddedField(d.month, 2);
    PaddedField(d.day, 2);
    var yyyy := PadZeros(NatToString(d.year), 4);
    var mm := PadZeros(NatToString(d.month), 2);
    var dd := PadZeros(NatToString(d.day), 2);
    var s := IsoDate(d);
    assert s == yyyy + "-" + mm + "-" + dd;
    assert s[..4] == yyyy && s[5..7] == mm && s[8..] == dd;
  }

  /** "2024-01-01" is the first of January 2024. */
  lemma NewYear2024()
    ensures ParseIsoDate("2024-01-01") == Some(Date(2024, 1, 1))
  {
    var d := Date(2024, 1, 1);
    assert IsoDate(d) == "2024-01-01" by {
      assert NatToString(2024) == "2024" by {
        assert NatToString(2) == "2";
        assert NatToString(20) == "20";
        assert NatToString(202) == "202";
      }
      assert NatToString(1) == "1";
    }
    IsoDateRoundTrip(d);
  }

  /** In a four-digit year the first seven characters of the ISO date, YYYY-MM, name the
      year and the month: equal prefixes mean the same month of the same year. */
  lemma MonthPrefixDeterminesMonth(a: Date, b: Date)
    requires Valid(a) && 0 <= a.year <= 9999
    requires Valid(b) && 0 <= b.year <= 9999
    requires IsoDate(a)[..7] == IsoDate(b)[..7]
    ensures a.year == b.year && a.month == b.month
  {
    IsoDateRoundTrip(a);
    IsoDateRoundTrip(b);
    var sa, sb := IsoDate(a), IsoDate(b);
    assert sa[..4] == sa[..7][..4] && sb[..4] == sb[..7][..4];
    assert sa[5..7] == sa[..7][5..] && sb[5..7] == sb[..7][5..];
  }
}
