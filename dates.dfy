/** Time as the dashboard sees it, in UTC: a timestamp is a whole number of
    milliseconds since 1970-01-01T00:00:00Z, and the calendar day of a
    timestamp is the number of whole days since that instant. "Now" is never
    read from a clock; every calculator receives it as a parameter. */
module Dates {
  import opened Options
  import opened Text

  /** Milliseconds in a day. */
  const DAY: int := 86_400_000

  /** The calendar day of timestamp `t` (what `setHours(0, 0, 0, 0)` keeps). */
  function Day(t: int): int {
    t / DAY
  }

  /** Midnight at the start of calendar day `d`. */
  function Midnight(d: int): int {
    d * DAY
  }

  /** A timestamp lies in its own day, between that day's midnight and the next. */
  lemma MidnightBounds(t: int)
    ensures Midnight(Day(t)) <= t < Midnight(Day(t) + 1)
  {
  }

  /** Midnight of day `d` is in day `d`. */
  lemma DayOfMidnight(d: int)
    ensures Day(Midnight(d)) == d
  {
  }

  /** Later timestamps never fall on earlier days. */
  lemma DayMonotone(t1: int, t2: int)
    requires t1 <= t2
    ensures Day(t1) <= Day(t2)
  {
  }

  /** Later days start at later midnights. */
  lemma MidnightMonotone(d1: int, d2: int)
    requires d1 <= d2
    ensures Midnight(d1) <= Midnight(d2)
  {
  }

  predicate IsLeapYear(y: int) {
    y % 4 == 0 && (y % 100 != 0 || y % 400 == 0)
  }

  function DaysInMonth(y: int, m: int): int
    requires 1 <= m <= 12
  {
    if m == 2 then (if IsLeapYear(y) then 29 else 28)
    else if m == 4 || m == 6 || m == 9 || m == 11 then 30
    else 31
  }

  /** Days from 1970-01-01 to the proleptic Gregorian date y-m-d. */
  function DaysFromCivil(y: int, m: int, d: int): int
    requires 1 <= m <= 12
  {
    var y' := if m <= 2 then y - 1 else y;
    var era := y' / 400;
    var yoe := y' - era * 400;
    var mp := if m > 2 then m - 3 else m + 9;
    var doy := (153 * mp + 2) / 5 + d - 1;
    var doe := yoe * 365 + yoe / 4 - yoe / 100 + doy;
    era * 146097 + doe - 719468
  }

  /** Reads a calendar date written `YYYY-MM-DD` (the form every CSV uses) as
      UTC midnight of that day, as `parseISO(s)` does in a UTC environment
      and `new Date(s)` does for an existing date; anything else, or a month
      or day out of range, is an Invalid Date here (`parseISO`'s answer). */
  function ParseDate(s: string): (r: Option<int>)
    ensures r.Some? ==> |s| == 10 && s[4] == '-' && s[7] == '-'
    ensures r.Some? ==> r.value == Midnight(Day(r.value))
  {
    if |s| == 10 && s[4] == '-' && s[7] == '-'
       && AllDigits(s[..4]) && AllDigits(s[5..7]) && AllDigits(s[8..])
    then
      var y := DigitsValue(s[..4]);
      var m := DigitsValue(s[5..7]);
      var d := DigitsValue(s[8..]);
      if 1 <= m <= 12 && 1 <= d <= DaysInMonth(y, m)
      then
        DayOfMidnight(DaysFromCivil(y, m, d));
        Some(Midnight(DaysFromCivil(y, m, d)))
      else None
    else None
  }

  /** A string of the form `YYYY-MM-DD` reads as the date its digits spell,
      when that date exists. */
  lemma ParseDateOf(s: string, y: int, m: int, d: int)
    requires |s| == 10 && s[4] == '-' && s[7] == '-'
    requires AllDigits(s[..4]) && AllDigits(s[5..7]) && AllDigits(s[8..])
    requires DigitsValue(s[..4]) == y && DigitsValue(s[5..7]) == m && DigitsValue(s[8..]) == d
    ensures ParseDate(s) ==
      if 1 <= m <= 12 && 1 <= d <= DaysInMonth(y, m) then Some(Midnight(DaysFromCivil(y, m, d)))
      else None
  {
  }

  /** Two digits make a number below one hundred. */
  lemma DigitsValue2(s: string)
    requires |s| == 2 && AllDigits(s)
    ensures DigitsValue(s) == 10 * DigitValue(s[0]) + DigitValue(s[1])
  {
    assert s[..1][..0] == [];
  }

  /** Four digits make a year. */
  lemma DigitsValue4(s: string)
    requires |s| == 4 && AllDigits(s)
    ensures DigitsValue(s) ==
      1000 * DigitValue(s[0]) + 100 * DigitValue(s[1]) + 10 * DigitValue(s[2]) + DigitValue(s[3])
  {
    assert s[..3][..2] == s[..2];
    assert s[..2][..1] == s[..1];
    assert s[..1][..0] == [];
    assert DigitsValue(s[..1]) == DigitValue(s[0]);
    assert DigitsValue(s[..2]) == DigitsValue(s[..1]) * 10 + DigitValue(s[1]);
    assert DigitsValue(s[..3]) == DigitsValue(s[..2]) * 10 + DigitValue(s[2]);
  }

  /** Day 0 is 1970-01-01. */
  lemma CivilEpoch()
    ensures DaysFromCivil(1970, 1, 1) == 0
  {
    assert (153 * 10 + 2) / 5 == 306;
    assert 1969 / 400 == 4;
  }

  /** 2024-02-29 is day 19782. */
  lemma CivilLeapDay()
    ensures DaysFromCivil(2024, 2, 29) == 19782
  {
    assert (153 * 11 + 2) / 5 == 337;
    assert 2023 / 400 == 5;
  }

  /** The epoch reads as timestamp 0. */
  lemma ParseEpoch()
    ensures ParseDate("1970-01-01") == Some(0)
  {
    var s := "1970-01-01";
    DigitsValue4(s[..4]);
    DigitsValue2(s[5..7]);
    DigitsValue2(s[8..]);
    ParseDateOf(s, 1970, 1, 1);
    CivilEpoch();
  }

  /** A leap day reads as its day number. */
  lemma ParseLeapDay()
    ensures ParseDate("2024-02-29") == Some(Midnight(19782))
  {
    var s := "2024-02-29";
    DigitsValue4(s[..4]);
    DigitsValue2(s[5..7]);
    DigitsValue2(s[8..]);
    ParseDateOf(s, 2024, 2, 29);
    CivilLeapDay();
  }

  /** February 29th of a common year is an Invalid Date. */
  lemma ParseCommonYearLeapDay()
    ensures ParseDate("2023-02-29") == None
  {
    var s := "2023-02-29";
    DigitsValue4(s[..4]);
    DigitsValue2(s[5..7]);
    DigitsValue2(s[8..]);
    ParseDateOf(s, 2023, 2, 29);
  }

  /** The days from the civil epoch's reference point to 1 March of year
      `yp + 1`: the part of `DaysFromCivil` that depends on the year, as
      365 days a year plus one for each multiple of 4, less one for each
      multiple of 100, plus one for each multiple of 400. */
  function YearStart(yp: int): int {
    365 * yp + yp / 4 - yp / 100 + yp / 400
  }

  /** Dividing a year `r` of era `e` by 4, 100 or 400 divides the era part
      exactly. */
  lemma EraQuotients(e: int, r: int)
    requires 0 <= r < 400
    ensures (400 * e + r) / 4 == 100 * e + r / 4
    ensures (400 * e + r) / 100 == 4 * e + r / 100
    ensures (400 * e + r) / 400 == e
  {
  }

  /** `DaysFromCivil` counts years from March: the year part plus the day
      of the March-based year. */
  lemma CivilSplit(y: int, m: int, d: int)
    requires 1 <= m <= 12
    ensures var yp := if m <= 2 then y - 1 else y;
      var mp := if m > 2 then m - 3 else m + 9;
      DaysFromCivil(y, m, d) == YearStart(yp) + (153 * mp + 2) / 5 + d - 1 - 719468
  {
    var yp := if m <= 2 then y - 1 else y;
    var e := yp / 400;
    EraQuotients(e, yp - e * 400);
  }

  /** One more year adds one to the quotient by `n` exactly when the new
      year is a multiple of `n`. */
  lemma QuotientStep(x: int, n: int)
    requires n == 4 || n == 100 || n == 400
    ensures (x + 1) / n == x / n + (if (x + 1) % n == 0 then 1 else 0)
  {
  }

  function Indicator(b: bool): int {
    if b then 1 else 0
  }

  /** The leap rule as a count: a multiple of 4, less a multiple of 100,
      plus a multiple of 400. */
  lemma LeapIndicator(y: int)
    ensures Indicator(IsLeapYear(y)) ==
      Indicator(y % 4 == 0) - Indicator(y % 100 == 0) + Indicator(y % 400 == 0)
  {
    if y % 400 == 0 {
      assert y == 100 * (4 * (y / 400));
    }
    if y % 100 == 0 {
      assert y == 4 * (25 * (y / 100));
    }
  }

  /** A March-based year lasts 365 days, 366 when its February is a leap
      February. */
  lemma YearLength(yp: int)
    ensures YearStart(yp + 1) == YearStart(yp) + 365 + (if IsLeapYear(yp + 1) then 1 else 0)
  {
    QuotientStep(yp, 4);
    QuotientStep(yp, 100);
    QuotientStep(yp, 400);
    LeapIndicator(yp + 1);
  }

  /** The next day of the same month is the next day number. */
  lemma NextDayInMonth(y: int, m: int, d: int)
    requires 1 <= m <= 12
    ensures DaysFromCivil(y, m, d + 1) == DaysFromCivil(y, m, d) + 1
  {
  }

  /** March-based month `mp` (0 for March) starts `(153 * mp + 2) / 5`
      days into the year: each month but February starts right after the
      last day of the one before. */
  lemma MonthStarts(y: int, m: int)
    requires 1 <= m < 12 && m != 2
    ensures var mp := if m > 2 then m - 3 else m + 9;
      (153 * (mp + 1) + 2) / 5 == (153 * mp + 2) / 5 + DaysInMonth(y, m)
  {
  }

  /** 1 March follows the last day of February, 28th or 29th. */
  lemma FebruaryToMarch(y: int)
    ensures DaysFromCivil(y, 3, 1) == DaysFromCivil(y, 2, DaysInMonth(y, 2)) + 1
  {
    CivilSplit(y, 3, 1);
    CivilSplit(y, 2, DaysInMonth(y, 2));
    YearLength(y - 1);
    assert y - 1 + 1 == y;
  }

  /** The first of the next month follows the last day of the month. */
  lemma NextMonth(y: int, m: int)
    requires 1 <= m < 12
    ensures DaysFromCivil(y, m + 1, 1) == DaysFromCivil(y, m, DaysInMonth(y, m)) + 1
  {
    if m == 2 {
      FebruaryToMarch(y);
    } else {
      CivilSplit(y, m + 1, 1);
      CivilSplit(y, m, DaysInMonth(y, m));
      MonthStarts(y, m);
    }
  }

  /** 1 January follows 31 December. */
  lemma NextYear(y: int)
    ensures DaysFromCivil(y + 1, 1, 1) == DaysFromCivil(y, 12, 31) + 1
  {
    CivilSplit(y + 1, 1, 1);
    CivilSplit(y, 12, 31);
  }

  /** A date that exists reads as the midnight of its day number, and the
      next date reads one day later: consecutive dates are consecutive
      days. */
  lemma ParseNextDay(s: string, t: string, y: int, m: int, d: int)
    requires |s| == 10 && s[4] == '-' && s[7] == '-'
    requires AllDigits(s[..4]) && AllDigits(s[5..7]) && AllDigits(s[8..])
    requires DigitsValue(s[..4]) == y && DigitsValue(s[5..7]) == m && DigitsValue(s[8..]) == d
    requires |t| == 10 && t[4] == '-' && t[7] == '-'
    requires AllDigits(t[..4]) && AllDigits(t[5..7]) && AllDigits(t[8..])
    requires DigitsValue(t[..4]) == y && DigitsValue(t[5..7]) == m && DigitsValue(t[8..]) == d + 1
    requires 1 <= m <= 12 && 1 <= d < DaysInMonth(y, m)
    ensures ParseDate(s).Some? && ParseDate(t).Some?
    ensures ParseDate(t).value == ParseDate(s).value + DAY
  {
    ParseDateOf(s, y, m, d);
    ParseDateOf(t, y, m, d + 1);
    NextDayInMonth(y, m, d);
  }
}
