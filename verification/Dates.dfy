/** Dates of the data generator, written as year * 1000 + day of the year, and their day numbers. */
module Dates {
  /** A leap rule: days of a year beyond 365. */
  type Leap = int -> int

  ghost predicate LeapRule(leap: Leap) {
    forall y :: 0 <= leap(y) <= 1
  }

  /** The generator's own rule, on two-digit years. */
  function Leaps(y: int): int {
    if y % 4 == 0 && y % 100 != 0 then 1 else 0
  }

  const START_YEAR := 92

  function FirstDay(year: int): int {
    year * 1000 + 1
  }

  /** Days from the first of January of year `y0` to that of year `y`. */
  function DaysBetween(leap: Leap, y0: int, y: int): int
    decreases y - y0
  {
    if y <= y0 then 0 else DaysBetween(leap, y0, y - 1) + 365 + leap(y - 1)
  }

  /** A day that exists, in year `y0` or later. */
  predicate IsDate(leap: Leap, y0: int, date: int) {
    date / 1000 >= y0 && 1 <= date % 1000 <= 365 + leap(date / 1000)
  }

  /** Number of days that a date lies after the start of year `y0`. */
  function DayNumber(leap: Leap, y0: int, date: int): int {
    DaysBetween(leap, y0, date / 1000) + date % 1000 - 1
  }

  method Unjulian(leap: Leap, y0: int, date: int) returns (res: int)
    ensures res == DayNumber(leap, y0, date)
  {
    res := 0;
    var i := y0;
    while i < date / 1000
      invariant i <= date / 1000 || i == y0
      invariant res == DaysBetween(leap, y0, i)
    {
      res := res + 365 + leap(i);
      i := i + 1;
    }
    res := res + date % 1000 - 1;
  }

  /** The date of a day counted from the start date; days before it come back unchanged. */
  method Julian(leap: Leap, y0: int, date: int) returns (r: int)
    requires LeapRule(leap)
    ensures date < FirstDay(y0) ==> r == date
    ensures date >= FirstDay(y0) ==> IsDate(leap, y0, r) && FirstDay(y0) + DayNumber(leap, y0, r) == date
  {
    var offset, result := date - FirstDay(y0), FirstDay(y0);
    var yr := result / 1000;
    var yend := yr * 1000 + 365 + leap(yr);
    while result + offset > yend
      invariant yr >= y0 && result == FirstDay(yr) && yr == result / 1000 && yend == yr * 1000 + 365 + leap(yr)
      invariant DaysBetween(leap, y0, yr) + offset == date - FirstDay(y0)
      invariant date >= FirstDay(y0) ==> offset >= 0
      invariant date < FirstDay(y0) ==> yr == y0
      decreases offset
    {
      offset := offset - (yend - result + 1);
      result := result + 1000;
      yr := result / 1000;
      yend := yr * 1000 + 365 + leap(yr);
    }
    r := result + offset;
  }

  lemma {:induction false} YearsSpread(leap: Leap, y0: int, y: int, z: int)
    requires LeapRule(leap) && y0 <= y < z
    ensures DaysBetween(leap, y0, y) + 365 + leap(y) <= DaysBetween(leap, y0, z)
    decreases z - y
  {
    if y + 1 < z { YearsSpread(leap, y0, y, z - 1); }
  }

  /** No two dates have the same day number. */
  lemma DayNumberInjective(leap: Leap, y0: int, a: int, b: int)
    requires LeapRule(leap) && IsDate(leap, y0, a) && IsDate(leap, y0, b)
    requires DayNumber(leap, y0, a) == DayNumber(leap, y0, b)
    ensures a == b
  {
    if a / 1000 < b / 1000 {
      YearsSpread(leap, y0, a / 1000, b / 1000);
    } else if b / 1000 < a / 1000 {
      YearsSpread(leap, y0, b / 1000, a / 1000);
    }
  }

  /** Converting a date to a day number and back gives the date. */
  method RoundTrip(leap: Leap, y0: int, date: int) returns (back: int)
    requires LeapRule(leap) && IsDate(leap, y0, date)
    ensures back == date
  {
    var n := Unjulian(leap, y0, date);
    DayNumberNonNegative(leap, y0, date);
    back := Julian(leap, y0, FirstDay(y0) + n);
    DayNumberInjective(leap, y0, back, date);
  }

  /** Converting a day number to a date and back gives the day number. */
  method RoundTripOfDay(leap: Leap, y0: int, day: nat) returns (back: int)
    requires LeapRule(leap)
    ensures back == day
  {
    var date := Julian(leap, y0, FirstDay(y0) + day);
    back := Unjulian(leap, y0, date);
  }

  lemma {:induction false} DaysNonNegative(leap: Leap, y0: int, y: int)
    requires LeapRule(leap)
    ensures DaysBetween(leap, y0, y) >= 0
    decreases y - y0
  {
    if y > y0 { DaysNonNegative(leap, y0, y - 1); }
  }

  lemma DayNumberNonNegative(leap: Leap, y0: int, date: int)
    requires LeapRule(leap) && IsDate(leap, y0, date)
    ensures DayNumber(leap, y0, date) >= 0
  {
    DaysNonNegative(leap, y0, date / 1000);
  }

  // ----- order dates

  /** Year of an order, from a hash of its key. */
  function OrderYear(hash: int -> nat, key: int): int {
    var r := hash(key * 71 + 11) % 100;
    if r < 10 then 93 else if r < 45 then 94 else if r < 75 then 95 else if r < 95 then 96 else 97
  }

  /** Day of that year, from 0. */
  function OrderDay(hash: int -> nat, key: int): nat {
    var yy := OrderYear(hash, key);
    if (yy == 95 || yy == 96) && hash(key * 79 + 23) % 100 < 60 then hash(key * 83 + 29) % 240
    else hash(key * 73 + 17) % (365 + Leaps(yy))
  }

  method OrderDate(hash: int -> nat, key: int) returns (date: int)
    ensures date == FirstDay(START_YEAR)
                    + DayNumber(Leaps, START_YEAR, OrderYear(hash, key) * 1000 + OrderDay(hash, key) + 1)
  {
    var n := Unjulian(Leaps, START_YEAR, OrderYear(hash, key) * 1000 + OrderDay(hash, key) + 1);
    date := FirstDay(START_YEAR) + n;
  }

  lemma OrderDayExists(hash: int -> nat, key: int)
    ensures IsDate(Leaps, START_YEAR, OrderYear(hash, key) * 1000 + OrderDay(hash, key) + 1)
    ensures (OrderYear(hash, key) * 1000 + OrderDay(hash, key) + 1) / 1000 == OrderYear(hash, key)
  {
    assert OrderDay(hash, key) < 365 + Leaps(OrderYear(hash, key));
    hide OrderDay, OrderYear;
    YearOf(OrderYear(hash, key), OrderDay(hash, key));
  }

  lemma YearOf(year: int, day: nat)
    requires day < 366
    ensures (year * 1000 + day + 1) / 1000 == year && (year * 1000 + day + 1) % 1000 == day + 1
  {
  }

  /** The year recovered from a generated order date is the year that was chosen. */
  method YearOfOrder(hash: int -> nat, key: int) returns (year: int)
    ensures year == 1900 + OrderYear(hash, key)
  {
    hide OrderDay, OrderYear, DaysBetween, IsDate;
    OrderDayExists(hash, key);
    var date := OrderDate(hash, key);
    ghost var chosen := OrderYear(hash, key) * 1000 + OrderDay(hash, key) + 1;
    assert DayNumber(Leaps, START_YEAR, chosen) >= 0 by { DayNumberNonNegative(Leaps, START_YEAR, chosen); }
    var r := Julian(Leaps, START_YEAR, date);
    DayNumberInjective(Leaps, START_YEAR, r, chosen);
    year := 1900 + r / 1000;
  }
}
