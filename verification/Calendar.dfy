/** The proleptic Gregorian calendar of section 21.4.1 of ECMA-262: day numbers since 1970-01-01
    and their year, month (0..11) and date (1..31). */
module Calendar {

  predicate Leap(y: int) {
    y % 4 == 0 && (y % 100 != 0 || y % 400 == 0)
  }

  function DaysInYear(y: int): int {
    if Leap(y) then 366 else 365
  }

  /** The day number of 1 January of year y: the lengths of the years between it and 1970. */
  function DayFromYear(y: int): int
    decreases if y < 1970 then 1970 - y else y - 1970
  {
    if y == 1970 then 0
    else if y > 1970 then DayFromYear(y - 1) + DaysInYear(y - 1)
    else DayFromYear(y + 1) - DaysInYear(y)
  }

  lemma NextYear(y: int)
    ensures DayFromYear(y + 1) == DayFromYear(y) + DaysInYear(y)
  {
  }

  lemma FourthYears(y: int)
    ensures (y - 1968) / 4 - (y - 1969) / 4 == if y % 4 == 0 then 1 else 0
  {
  }

  lemma Centuries(y: int)
    ensures (y - 1900) / 100 - (y - 1901) / 100 == if y % 100 == 0 then 1 else 0
  {
  }

  lemma FourthCenturies(y: int)
    ensures (y - 1600) / 400 - (y - 1601) / 400 == if y % 400 == 0 then 1 else 0
  {
  }

  /** The formula ECMA-262 gives. */
  function EcmaDayFromYear(y: int): int {
    365 * (y - 1970) + (y - 1969) / 4 - (y - 1901) / 100 + (y - 1601) / 400
  }

  lemma LeapTests(y: int)
    ensures y % 100 == 0 ==> y % 4 == 0
    ensures y % 400 == 0 ==> y % 100 == 0
  {
    if y % 100 == 0 { Divides(y, 4, 25 * (y / 100)); }
    if y % 400 == 0 { Divides(y, 100, 4 * (y / 400)); }
  }

  lemma Divides(y: int, k: int, n: int)
    requires k > 0 && y == k * n
    ensures y % k == 0
  {
    assert y == k * (y / k) + y % k;
    var d := n - y / k;
    assert k * d == y % k;
    ProductSize(k, d);
  }

  lemma ProductSize(k: int, d: int)
    requires k > 0
    ensures d >= 1 ==> k * d >= k
    ensures d <= -1 ==> k * d <= -k
  {
  }

  lemma EcmaNextYear(y: int)
    ensures EcmaDayFromYear(y + 1) == EcmaDayFromYear(y) + DaysInYear(y)
  {
    FourthYears(y);
    Centuries(y);
    FourthCenturies(y);
    LeapTests(y);
    var a, b, c := (y - 1969) / 4, (y - 1901) / 100, (y - 1601) / 400;
    assert EcmaDayFromYear(y) == 365 * (y - 1970) + a - b + c;
    assert EcmaDayFromYear(y + 1) == 365 * (y - 1969) + (y - 1968) / 4 - (y - 1900) / 100 + (y - 1600) / 400;
  }

  /** Counting year by year gives ECMA-262's formula. */
  lemma {:induction false} FormulaCountsDays(y: int)
    ensures DayFromYear(y) == EcmaDayFromYear(y)
    decreases if y < 1970 then 1970 - y else y - 1970
  {
    if y == 1970 {
    } else {
      hide EcmaDayFromYear, DaysInYear;
      if y > 1970 {
        FormulaCountsDays(y - 1);
        EcmaNextYear(y - 1);
      } else {
        FormulaCountsDays(y + 1);
        EcmaNextYear(y);
      }
    }
  }

  lemma {:induction false} YearsIncrease(y: int, z: int)
    requires y <= z
    ensures DayFromYear(y) + 365 * (z - y) <= DayFromYear(z)
    decreases z - y
  {
    if y < z {
      YearsIncrease(y, z - 1);
      NextYear(z - 1);
    }
  }

  /** The last year that has begun by day d, searched for from year y. */
  function YearFrom(d: int, y: int): (r: int)
    ensures DayFromYear(r) <= d < DayFromYear(r + 1)
    decreases if d < DayFromYear(y) then DayFromYear(y) - d + 366 else d - DayFromYear(y)
  {
    NextYear(y);
    NextYear(y - 1);
    if d < DayFromYear(y) then YearFrom(d, y - 1)
    else if d >= DayFromYear(y + 1) then YearFrom(d, y + 1)
    else y
  }

  function Year(d: int): int { YearFrom(d, 1970) }

  /** Days from 1 January to the first of month m; m == 12 gives the length of the year. */
  function MonthStart(m: int, leap: bool): int
    requires 0 <= m <= 12
  {
    var l := if leap then 1 else 0;
    match m
    case 0 => 0
    case 1 => 31
    case 2 => 59 + l
    case 3 => 90 + l
    case 4 => 120 + l
    case 5 => 151 + l
    case 6 => 181 + l
    case 7 => 212 + l
    case 8 => 243 + l
    case 9 => 273 + l
    case 10 => 304 + l
    case 11 => 334 + l
    case _ => 365 + l
  }

  function MonthWithin(n: int, leap: bool, m: int): (r: int)
    requires 0 <= m <= 11 && MonthStart(m, leap) <= n < MonthStart(12, leap)
    ensures m <= r <= 11 && MonthStart(r, leap) <= n < MonthStart(r + 1, leap)
    decreases 12 - m
  {
    if n < MonthStart(m + 1, leap) then m else MonthWithin(n, leap, m + 1)
  }

  function Month(d: int): (m: int)
    ensures 0 <= m <= 11
    ensures MonthStart(m, Leap(Year(d))) <= d - DayFromYear(Year(d)) < MonthStart(m + 1, Leap(Year(d)))
  {
    NextYear(Year(d));
    MonthWithin(d - DayFromYear(Year(d)), Leap(Year(d)), 0)
  }

  lemma MonthLength(m: int, leap: bool)
    requires 0 <= m <= 11
    ensures 28 <= MonthStart(m + 1, leap) - MonthStart(m, leap) <= 31
  {
  }

  lemma MonthsIncrease(m: int, n: int, leap: bool)
    requires 0 <= m <= n <= 12
    ensures MonthStart(m, leap) <= MonthStart(n, leap)
    decreases n - m
  {
    if m < n {
      MonthsIncrease(m, n - 1, leap);
      MonthLength(n - 1, leap);
    }
    hide MonthStart;
  }

  function Date(d: int): (n: int)
    ensures 1 <= n <= 31
  {
    MonthLength(Month(d), Leap(Year(d)));
    d - DayFromYear(Year(d)) - MonthStart(Month(d), Leap(Year(d))) + 1
  }

  function WeekDay(d: int): int { (d + 4) % 7 }

  /** ECMA-262's MakeDay: months outside 0..11 roll into the year, dates outside the month into the
      neighbouring months. */
  function MakeDay(y: int, m: int, date: int): int {
    var ym := y + m / 12;
    DayFromYear(ym) + MonthStart(m % 12, Leap(ym)) + date - 1
  }

  /** Setting the date of day d to Date(d) + k moves k days, whatever months and years lie between. */
  lemma SetDateShifts(d: int, k: int)
    ensures MakeDay(Year(d), Month(d), Date(d) + k) == d + k
  {
    hide DayFromYear, Year, MonthStart, Leap, Month;
    assert Month(d) / 12 == 0 && Month(d) % 12 == Month(d);
  }

  lemma YearUnique(d: int, y: int)
    requires DayFromYear(y) <= d < DayFromYear(y + 1)
    ensures Year(d) == y
  {
    if y < Year(d) { YearsIncrease(y + 1, Year(d)); }
    if Year(d) < y { YearsIncrease(Year(d) + 1, y); }
  }

  /** A month ends where the next begins, also from December into the following January. */
  lemma MonthsAbut(y: int, m: int)
    requires 0 <= m <= 11
    ensures MakeDay(y, m, 1) == DayFromYear(y) + MonthStart(m, Leap(y))
    ensures MakeDay(y, m + 1, 1) == DayFromYear(y) + MonthStart(m + 1, Leap(y))
  {
    hide *;
    FirstOfMonth(y, m);
    if m < 11 {
      FirstOfMonth(y, m + 1);
    } else {
      NextYear(y);
      YearEnd(y);
    }
  }

  /** The civil length of a month. */
  function DaysInMonth(y: int, m: int): int
    requires 0 <= m <= 11
  {
    if m == 1 then (if Leap(y) then 29 else 28) else if m in {3, 5, 8, 10} then 30 else 31
  }

  /** From the first of a month to the first of the next lie as many days as the month has. */
  lemma MonthLengths(y: int, m: int)
    requires 0 <= m <= 11
    ensures MakeDay(y, m + 1, 1) - MakeDay(y, m, 1) == DaysInMonth(y, m)
  {
    MonthsAbut(y, m);
    hide MakeDay, DayFromYear, Leap;
  }

  /** A day's year, month and date name that day, and the date is one its month has. */
  lemma DateNamesDay(d: int)
    ensures MakeDay(Year(d), Month(d), Date(d)) == d && 1 <= Date(d) <= DaysInMonth(Year(d), Month(d))
  {
    SetDateShifts(d, 0);
    MonthLengths(Year(d), Month(d));
    MonthsAbut(Year(d), Month(d));
    hide MakeDay, DayFromYear, Leap, MonthStart, DaysInMonth;
  }

  /** Weekdays follow each other in a cycle of seven, and 1970-01-01 was a Thursday. */
  lemma WeekDaysCycle(d: int)
    ensures WeekDay(d + 1) == (if WeekDay(d) == 6 then 0 else WeekDay(d) + 1) && 0 <= WeekDay(d) <= 6
    ensures WeekDay(MakeDay(1970, 0, 1)) == 4
  {
  }

  lemma FirstOfMonth(y: int, m: int)
    requires 0 <= m <= 11
    ensures MakeDay(y, m, 1) == DayFromYear(y) + MonthStart(m, Leap(y))
  {
    hide DayFromYear, Leap, MonthStart;
    assert m / 12 == 0 && m % 12 == m;
  }

  lemma YearEnd(y: int)
    ensures MakeDay(y, 12, 1) == DayFromYear(y + 1) && MonthStart(12, Leap(y)) == DaysInYear(y)
  {
    hide DayFromYear, Leap;
  }

  lemma MonthWithinYear(y: int, m: int)
    requires 0 <= m <= 11
    ensures DayFromYear(y) <= MakeDay(y, m, 1) < MakeDay(y, m + 1, 1) <= DayFromYear(y + 1)
  {
    hide *;
    MonthsAbut(y, m);
    NextYear(y);
    MonthBounds(y, m);
  }

  lemma MonthBounds(y: int, m: int)
    requires 0 <= m <= 11
    ensures 0 <= MonthStart(m, Leap(y)) < MonthStart(m + 1, Leap(y)) <= DaysInYear(y)
  {
  }

  /** Day d has year y and month m exactly when it lies between the first of m and the first of m + 1. */
  lemma MonthOfDay(d: int, y: int, m: int)
    requires 0 <= m <= 11
    ensures Year(d) == y && Month(d) == m <==> MakeDay(y, m, 1) <= d < MakeDay(y, m + 1, 1)
  {
    hide *;
    MonthsAbut(y, m);
    if MakeDay(y, m, 1) <= d < MakeDay(y, m + 1, 1) {
      MonthWithinYear(y, m);
      YearUnique(d, y);
      MonthUnique(d, m);
    }
  }

  lemma MonthUnique(d: int, m: int)
    requires 0 <= m <= 11
    requires MonthStart(m, Leap(Year(d))) <= d - DayFromYear(Year(d)) < MonthStart(m + 1, Leap(Year(d)))
    ensures Month(d) == m
  {
    var k, leap := Month(d), Leap(Year(d));
    hide *;
    if k < m { MonthsIncrease(k + 1, m, leap); }
    if m < k { MonthsIncrease(m + 1, k, leap); }
  }
}
