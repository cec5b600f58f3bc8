/** Date.UTC(year, 0, 1), the first instant of a year in milliseconds since
    1970-01-01T00:00:00Z, under the proleptic Gregorian leap rule. Every
    quantity is an integer: a day is 86 400 000 ms, and the page's year of
    365.25 days is 31 557 600 000 ms. */
module Calendar {

  const MsPerDay: int := 86_400_000

  /** 1000 * 60 * 60 * 24 * 365.25, an exact integer. */
  const MsPerYear: int := 31_557_600_000

  predicate IsLeapYear(y: int) {
    y % 4 == 0 && (y % 100 != 0 || y % 400 == 0)
  }

  /** The number of Gregorian leap years in 1..n for n >= 0 (and minus the
      number in n+1..0 for n < 0); Euclidean division by a positive constant
      is floor division. */
  function LeapYearsThrough(n: int): int {
    n / 4 - n / 100 + n / 400
  }

  /** Days from 1970-01-01 to January 1 of year y (negative before 1970). */
  function DaysBeforeYear(y: int): int {
    365 * (y - 1970) + LeapYearsThrough(y - 1) - LeapYearsThrough(1969)
  }

  /** Date.UTC(y, 0, 1). Date.UTC reads the years 0 to 99 as 1900 to 1999;
      only 1900 to 2099 reach this function. */
  function YearStart(y: int): int {
    DaysBeforeYear(y) * MsPerDay
  }

  /** Stepping n by one moves n / d by one exactly when d divides n; one
      lemma per divisor keeps the arithmetic linear. */
  lemma FloorStep4(n: int)
    ensures n / 4 - (n - 1) / 4 == if n % 4 == 0 then 1 else 0
  {
    var q, r := (n - 1) / 4, (n - 1) % 4;
    if r == 3 { assert n == 4 * (q + 1); } else { assert n == 4 * q + (r + 1); }
  }

  lemma FloorStep100(n: int)
    ensures n / 100 - (n - 1) / 100 == if n % 100 == 0 then 1 else 0
  {
    var q, r := (n - 1) / 100, (n - 1) % 100;
    if r == 99 { assert n == 100 * (q + 1); } else { assert n == 100 * q + (r + 1); }
  }

  lemma FloorStep400(n: int)
    ensures n / 400 - (n - 1) / 400 == if n % 400 == 0 then 1 else 0
  {
    var q, r := (n - 1) / 400, (n - 1) % 400;
    if r == 399 { assert n == 400 * (q + 1); } else { assert n == 400 * q + (r + 1); }
  }

  /** The closed form counts exactly one extra day for each leap year: a
      year is 366 days long when it is a leap year and 365 otherwise.
      Together with YearStart(1970) == 0 this pins YearStart down. */
  lemma YearLength(y: int)
    ensures DaysBeforeYear(y + 1) - DaysBeforeYear(y) == if IsLeapYear(y) then 366 else 365
  {
    var d4, d100, d400 := y / 4 - (y - 1) / 4, y / 100 - (y - 1) / 100, y / 400 - (y - 1) / 400;
    assert DaysBeforeYear(y + 1) - DaysBeforeYear(y) == 365 + d4 - d100 + d400;
    FloorStep4(y);
    FloorStep100(y);
    FloorStep400(y);
    DivisorChain(y);
  }

  /** A multiple of 400 is a multiple of 100, and a multiple of 100 one of 4. */
  lemma DivisorChain(y: int)
    ensures y % 400 == 0 ==> y % 100 == 0
    ensures y % 100 == 0 ==> y % 4 == 0
  {
    if y % 400 == 0 {
      var q := y / 400;
      assert y == 400 * q;
      assert y / 100 == 4 * q;
    }
    if y % 100 == 0 {
      var q := y / 100;
      assert y == 100 * q;
      assert y / 4 == 25 * q;
    }
  }

  lemma EpochYear()
    ensures YearStart(1970) == 0
  {
  }

  /** Later years start strictly later. */
  lemma {:induction false} YearStartIncreasing(y1: int, y2: int)
    requires y1 < y2
    ensures YearStart(y1) < YearStart(y2)
    decreases y2 - y1
  {
    YearLength(y2 - 1);
    if y1 < y2 - 1 {
      YearStartIncreasing(y1, y2 - 1);
    }
  }

  /** Year starts are ordered as the years are. */
  lemma YearStartMonotone(y1: int, y2: int)
    ensures y1 <= y2 <==> YearStart(y1) <= YearStart(y2)
  {
    if y1 < y2 { YearStartIncreasing(y1, y2); }
    if y2 < y1 { YearStartIncreasing(y2, y1); }
  }

  /** The sign of a year's start: positive after 1970, zero for 1970 itself
      (the value the page also uses for "no year") and negative before. */
  lemma YearStartSign(y: int)
    ensures YearStart(y) > 0 <==> y > 1970
    ensures YearStart(y) == 0 <==> y == 1970
  {
    EpochYear();
    if y > 1970 { YearStartIncreasing(1970, y); }
    if y < 1970 { YearStartIncreasing(y, 1970); }
  }

  /** Date.UTC(2017, 0, 1) and its neighbours, as the platform gives them. */
  lemma KnownYearStarts()
    ensures YearStart(2017) == 1_483_228_800_000
    ensures YearStart(2020) == 1_577_836_800_000
    ensures YearStart(2025) == 1_735_689_600_000
    ensures YearStart(1900) == -2_208_988_800_000
  {
  }
}
