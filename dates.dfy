/**
 * Proleptic Gregorian calendar on integer day numbers.
 *
 * A day number counts days from 1970-01-01 (day 0, a Thursday).  JavaScript
 * `Date` values are modelled by the day number of their local calendar day;
 * the time of day and the time zone are not modelled.
 */
module Dates {

  /** A calendar date as the JavaScript getters report it (month is 1-based). */
  datatype Civil = Civil(year: int, month: int, day: int)

  /** Day of the week, numbered as `Date.prototype.getDay` does: 0 = Sunday … 6 = Saturday. */
  function Weekday(z: int): (w: int)
    ensures 0 <= w < 7
  {
    (z + 4) % 7
  }

  const SUNDAY := 0
  const MONDAY := 1
  const THURSDAY := 4
  const SATURDAY := 6

  lemma WeekdayNext(z: int)
    ensures Weekday(z + 1) == (Weekday(z) + 1) % 7
    ensures Weekday(z + 7) == Weekday(z)
  {
  }

  /** Two days share their weekday exactly when they are a whole number of weeks apart. */
  lemma WeekdayShift(z: int, k: int)
    ensures Weekday(z + k) == (Weekday(z) + k) % 7
  {
  }

  predicate IsLeapYear(y: int)
  {
    (y % 4 == 0 && y % 100 != 0) || y % 400 == 0
  }

  function DaysInYear(y: int): (n: int)
    ensures n == 365 || n == 366
  {
    if IsLeapYear(y) then 366 else 365
  }

  function DaysInMonth(y: int, m: int): (n: int)
    requires 1 <= m <= 12
    ensures 28 <= n <= 31
    ensures n == DaysBeforeMonth(y, m + 1) - DaysBeforeMonth(y, m)
  {
    if m == 2 then (if IsLeapYear(y) then 29 else 28)
    else if m == 4 || m == 6 || m == 9 || m == 11 then 30
    else 31
  }

  /** Days of year `y` before the first of month `m`; month 13 stands for the next New Year. */
  function DaysBeforeMonth(y: int, m: int): (n: int)
    requires 1 <= m <= 13
    ensures 0 <= n <= DaysInYear(y)
    ensures m == 1 ==> n == 0
    ensures m == 13 ==> n == DaysInYear(y)
  {
    [0, 31, 59, 90, 120, 151, 181, 212, 243, 273, 304, 334, 365][m - 1]
    + (if m > 2 && IsLeapYear(y) then 1 else 0)
  }

  /** Leap years among 1 .. n (counted with floor division, so it extends to n < 0). */
  function LeapsUpTo(n: int): int
  {
    n / 4 - n / 100 + n / 400
  }

  function DaysBeforeYear(y: int): int
  {
    365 * (y - 1970) + LeapsUpTo(y - 1) - LeapsUpTo(1969)
  }

  /** Floor division by 4, 100 and 400 steps up by one exactly at multiples of the divisor. */
  lemma DivSteps(y: int)
    ensures y / 4 - (y - 1) / 4 == (if y % 4 == 0 then 1 else 0)
    ensures y / 100 - (y - 1) / 100 == (if y % 100 == 0 then 1 else 0)
    ensures y / 400 - (y - 1) / 400 == (if y % 400 == 0 then 1 else 0)
  {
  }

  lemma Divisibility(y: int)
    ensures y % 400 == 0 ==> y % 100 == 0
    ensures y % 100 == 0 ==> y % 4 == 0
  {
  }

  lemma LeapStep(y: int)
    ensures LeapsUpTo(y) - LeapsUpTo(y - 1) == (if IsLeapYear(y) then 1 else 0)
  {
    DivSteps(y);
    Divisibility(y);
    var a, b, c := y / 4 - (y - 1) / 4, y / 100 - (y - 1) / 100, y / 400 - (y - 1) / 400;
    assert LeapsUpTo(y) - LeapsUpTo(y - 1) == a - b + c;
  }

  /** Consecutive New Years are one year length apart. */
  lemma YearLength(y: int)
    ensures DaysBeforeYear(y + 1) == DaysBeforeYear(y) + DaysInYear(y)
  {
    LeapStep(y);
  }

  lemma {:induction false} YearsMonotone(y: int, y': int)
    requires y <= y'
    ensures DaysBeforeYear(y) + 365 * (y' - y) <= DaysBeforeYear(y')
    decreases y' - y
  {
    if y < y' {
      YearsMonotone(y, y' - 1);
      YearLength(y' - 1);
    }
  }

  lemma {:induction false} YearsAboveEpoch(k: nat)
    ensures DaysBeforeYear(1970 + k) <= 366 * k
  {
    if k > 0 {
      YearsAboveEpoch(k - 1);
      YearLength(1970 + k - 1);
    }
  }

  lemma {:induction false} YearsBelowEpoch(k: nat)
    ensures DaysBeforeYear(1970 - k) <= -365 * k
  {
    if k > 0 {
      YearsBelowEpoch(k - 1);
      YearLength(1970 - k);
    }
  }

  /** A year whose New Year is not after day `z`. */
  function StartYear(z: int): (y: int)
    ensures DaysBeforeYear(y) <= z
  {
    if z >= 0 then
      YearsAboveEpoch(z / 366);
      1970 + z / 366
    else
      YearsBelowEpoch(-(z / 365));
      1970 + z / 365
  }

  function YearFrom(z: int, y: int): (r: int)
    requires DaysBeforeYear(y) <= z
    ensures DaysBeforeYear(r) <= z < DaysBeforeYear(r + 1)
    decreases z - DaysBeforeYear(y)
  {
    YearLength(y);
    if z < DaysBeforeYear(y + 1) then y else YearFrom(z, y + 1)
  }

  /** The calendar year that contains day `z` (`getFullYear`). */
  function YearOf(z: int): (y: int)
    ensures DaysBeforeYear(y) <= z < DaysBeforeYear(y + 1)
  {
    YearFrom(z, StartYear(z))
  }

  /** A year is determined by any day inside it. */
  lemma YearUnique(z: int, y: int)
    requires DaysBeforeYear(y) <= z < DaysBeforeYear(y + 1)
    ensures YearOf(z) == y
  {
    SameYear(z, YearOf(z), y);
  }

  lemma SameYear(z: int, r: int, y: int)
    requires DaysBeforeYear(r) <= z < DaysBeforeYear(r + 1)
    requires DaysBeforeYear(y) <= z < DaysBeforeYear(y + 1)
    ensures r == y
  {
    if r < y {
      YearsMonotone(r + 1, y);
    } else if r > y {
      YearsMonotone(y + 1, r);
    }
  }

  function MonthFrom(y: int, doy: int, m: int): (r: int)
    requires 1 <= m <= 12
    requires 0 <= doy < DaysBeforeMonth(y, m + 1)
    ensures 1 <= r <= m
    ensures DaysBeforeMonth(y, r) <= doy < DaysBeforeMonth(y, r + 1)
    decreases m
  {
    if DaysBeforeMonth(y, m) <= doy then m else MonthFrom(y, doy, m - 1)
  }

  lemma {:induction false} MonthsMonotone(y: int, m: int, k: int)
    requires 1 <= m <= k <= 13
    ensures DaysBeforeMonth(y, m) <= DaysBeforeMonth(y, k)
    ensures m < k ==> DaysBeforeMonth(y, m) + 28 <= DaysBeforeMonth(y, k)
    decreases k - m
  {
    if m < k {
      MonthsMonotone(y, m + 1, k);
      assert DaysInMonth(y, m) >= 28;
    }
  }

  lemma {:induction false} MonthUnique(y: int, doy: int, m: int, k: int)
    requires 1 <= m <= k <= 12
    requires DaysBeforeMonth(y, m) <= doy < DaysBeforeMonth(y, m + 1)
    ensures MonthFrom(y, doy, k) == m
    decreases k
  {
    if k > m {
      MonthsMonotone(y, m + 1, k);
      MonthUnique(y, doy, m, k - 1);
    }
  }

  /** The civil date of day number `z`; it is valid and maps back to `z`. */
  function CivilOf(z: int): (c: Civil)
    ensures ValidCivil(c)
    ensures DayNumber(c) == z
    ensures c.year == YearOf(z)
  {
    var y := YearOf(z);
    YearLength(y);
    var doy := z - DaysBeforeYear(y);
    var m := MonthFrom(y, doy, 12);
    Civil(y, m, doy - DaysBeforeMonth(y, m) + 1)
  }

  predicate ValidCivil(c: Civil)
  {
    1 <= c.month <= 12 && 1 <= c.day <= DaysInMonth(c.year, c.month)
  }

  /** Day number of a civil date (`new Date(y, m - 1, d)`, which also accepts overflowing days). */
  function DayNumber(c: Civil): int
    requires 1 <= c.month <= 12
  {
    DaysBeforeYear(c.year) + DaysBeforeMonth(c.year, c.month) + c.day - 1
  }

  /** Every valid civil date is the image of its own day number. */
  lemma CivilRoundTrip(c: Civil)
    requires ValidCivil(c)
    ensures CivilOf(DayNumber(c)) == c
  {
    var z := DayNumber(c);
    YearLength(c.year);
    MonthsMonotone(c.year, c.month + 1, 13);
    YearUnique(z, c.year);
    MonthUnique(c.year, z - DaysBeforeYear(c.year), c.month, 12);
  }

  /** The civil date of a day number is the valid date that numbers to it. */
  lemma CivilAt(z: int, c: Civil)
    requires ValidCivil(c) && DayNumber(c) == z
    ensures CivilOf(z) == c
  {
    CivilRoundTrip(c);
  }

  /** The first of a month, as a day number. */
  function FirstOfMonth(y: int, m: int): int
    requires 1 <= m <= 12
  {
    DayNumber(Civil(y, m, 1))
  }

  /** `String(n)` for a natural number. */
  function NatToString(n: nat): (s: string)
    ensures |s| >= 1
    ensures forall i :: 0 <= i < |s| ==> '0' <= s[i] <= '9'
    ensures n < 10 ==> |s| == 1
    ensures n < 100 ==> |s| <= 2
    ensures n < 10000 ==> |s| <= 4
    decreases n
  {
    if n < 10 then [DigitChar(n)] else NatToString(n / 10) + [DigitChar(n % 10)]
  }

  function DigitChar(d: nat): (c: char)
    requires d < 10
    ensures '0' <= c <= '9'
  {
    ['0', '1', '2', '3', '4', '5', '6', '7', '8', '9'][d]
  }

  /** The number a string of decimal digits spells (`parseInt(s, 10)` on digits). */
  function DigitsValue(s: string): int
  {
    if |s| == 0 then 0 else 10 * DigitsValue(s[..|s| - 1]) + (s[|s| - 1] as int - '0' as int)
  }

  /** Reading back the digits of a number gives the number. */
  lemma {:induction false} NatToStringValue(n: nat)
    ensures DigitsValue(NatToString(n)) == n
    decreases n
  {
    var s := NatToString(n);
    if n < 10 {
      DigitCharValue(n);
      assert s[..|s| - 1] == [];
    } else {
      NatToStringValue(n / 10);
      DigitCharValue(n % 10);
      assert s[..|s| - 1] == NatToString(n / 10);
    }
  }

  lemma DigitCharValue(d: nat)
    requires d < 10
    ensures DigitChar(d) as int - '0' as int == d
  {
  }

  /** Leading zeros do not change the value. */
  lemma {:induction false} LeadingZeroValue(s: string)
    ensures DigitsValue("0" + s) == DigitsValue(s)
    decreases |s|
  {
    if |s| > 0 {
      LeadingZeroValue(s[..|s| - 1]);
      assert ("0" + s)[..|s|] == "0" + s[..|s| - 1];
    }
  }

  /** `String(n)` for any integer. */
  function IntToString(n: int): string
  {
    if n >= 0 then NatToString(n) else "-" + NatToString(-n)
  }

  /** `s.padStart(width, '0')`. */
  function PadZero(s: string, width: nat): (r: string)
    ensures |r| == if |s| >= width then |s| else width
    ensures r[|r| - |s|..] == s
    ensures forall i :: 0 <= i < |r| - |s| ==> r[i] == '0'
  {
    if |s| >= width then s else seq(width - |s|, _ => '0') + s
  }

  /** Two-digit zero padding of a month or day number. */
  function Pad2(n: nat): (r: string)
    ensures n < 100 ==> |r| == 2
  {
    PadZero(NatToString(n), 2)
  }

  /** The year part of `toISOString`: four digits in 0..9999, a signed six-digit year otherwise. */
  function IsoYear(y: int): string
  {
    if 0 <= y <= 9999 then PadZero(NatToString(y), 4)
    else if y < 0 then "-" + PadZero(NatToString(-y), 6)
    else "+" + PadZero(NatToString(y), 6)
  }

  /** "YYYY-MM-DD" of a civil date (`toISOString().split('T')[0]`). */
  function IsoDate(c: Civil): string
    requires 1 <= c.month <= 12 && 1 <= c.day <= 31
  {
    IsoYear(c.year) + "-" + Pad2(c.month) + "-" + Pad2(c.day)
  }

  /** For four-digit years the date string is ten characters with dashes at 4 and 7. */
  lemma IsoDateShape(c: Civil)
    requires 1 <= c.month <= 12 && 1 <= c.day <= 31
    requires 0 <= c.year <= 9999
    ensures |IsoDate(c)| == 10 && IsoDate(c)[4] == '-' && IsoDate(c)[7] == '-'
  {
    FieldLengths(c);
    DashedShape(IsoYear(c.year), Pad2(c.month), Pad2(c.day));
  }

  lemma FieldLengths(c: Civil)
    requires 1 <= c.month <= 12 && 1 <= c.day <= 31
    requires 0 <= c.year <= 9999
    ensures |IsoYear(c.year)| == 4 && |Pad2(c.month)| == 2 && |Pad2(c.day)| == 2
  {
  }

  lemma DashedShape(y: string, m: string, d: string)
    requires |m| == 2 && |d| == 2
    ensures |y + "-" + m + "-" + d| == |y| + 6
    ensures (y + "-" + m + "-" + d)[|y|] == '-'
    ensures (y + "-" + m + "-" + d)[|y| + 3] == '-'
  {
  }

  /** The "YYYY-MM-DD" string of a day number. */
  function FormatDay(z: int): string
  {
    IsoDate(CivilOf(z))
  }

  // Months numbered from 0, as `Date.prototype.getMonth` numbers them

  /** The first of the month, as a day number. */
  function First(year: int, month: int): int
    requires 0 <= month <= 11
  {
    FirstOfMonth(year, month + 1)
  }

  /** `new Date(year, month, 0).getDate()`: the length of the previous month. */
  function PrevMonthLength(year: int, month: int): int
    requires 0 <= month <= 11
  {
    if month == 0 then DaysInMonth(year - 1, 12) else DaysInMonth(year, month)
  }

  /** `new Date(year, month - 1, 1)`: the previous month, across New Year. */
  function PrevMonth(year: int, month: int): (r: (int, int))
    requires 0 <= month <= 11
    ensures 0 <= r.1 <= 11
  {
    if month == 0 then (year - 1, 11) else (year, month - 1)
  }

  /** `new Date(year, month + 1, 1)`: the next month, across New Year. */
  function NextMonth(year: int, month: int): (r: (int, int))
    requires 0 <= month <= 11
    ensures 0 <= r.1 <= 11
  {
    if month == 11 then (year + 1, 0) else (year, month + 1)
  }

  /**
   * The arrows undo each other, the next month starts the day after this
   * one ends, and the previous month is as long as the padding assumes.
   */
  lemma MonthNavigation(year: int, month: int)
    requires 0 <= month <= 11
    ensures var p := PrevMonth(year, month); NextMonth(p.0, p.1) == (year, month)
    ensures var n := NextMonth(year, month); PrevMonth(n.0, n.1) == (year, month)
    ensures var n := NextMonth(year, month); First(n.0, n.1) == First(year, month) + DaysInMonth(year, month + 1)
    ensures var p := PrevMonth(year, month); PrevMonthLength(year, month) == DaysInMonth(p.0, p.1 + 1)
  {
    if month == 11 {
      YearLength(year);
    }
  }
}
