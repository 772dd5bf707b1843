/** `NmeaParser::make_timestamp`, firmware/components/gps/NmeaParser.cpp:235-259. */
module Timestamp {

  predicate IsLeap(y: nat) {
    (y % 4 == 0 && y % 100 != 0) || y % 400 == 0
  }

  /** The table is read at months 1 to 12. */
  function DaysInMonth(mo: nat): nat
    requires 1 <= mo <= 12
  {
    if mo == 2 then 28 else if mo == 4 || mo == 6 || mo == 9 || mo == 11 then 30 else 31
  }

  function MonthLength(y: nat, mo: nat): nat
    requires 1 <= mo <= 12
  {
    DaysInMonth(mo) + if mo == 2 && IsLeap(y) then 1 else 0
  }

  function YearLength(y: nat): nat {
    if IsLeap(y) then 366 else 365
  }

  /** Days from the start of 1970 to the start of the year. */
  function YearDays(y: nat): nat {
    if y <= 1970 then 0 else YearDays(y - 1) + YearLength(y - 1)
  }

  /** Days from the start of the year to the start of the month. */
  function MonthDays(y: nat, mo: nat): nat
    requires mo <= 13
  {
    if mo <= 1 then 0 else MonthDays(y, mo - 1) + MonthLength(y, mo - 1)
  }

  datatype Date = Date(year: nat, month: nat, day: nat)

  predicate Valid(d: Date) {
    1970 <= d.year && 1 <= d.month <= 12 && 1 <= d.day <= MonthLength(d.year, d.month)
  }

  function DayNumber(d: Date): int
    requires d.month <= 13
  {
    YearDays(d.year) + MonthDays(d.year, d.month) + d.day - 1
  }

  /** Months above 13 would read past the table. */
  method MakeTimestamp(year: nat, month: nat, day: nat, h: nat, m: nat, s: nat) returns (t: int)
    requires month <= 13
    ensures t == DayNumber(Date(year, month, day)) * 86400 + h * 3600 + m * 60 + s
  {
    hide IsLeap;
    var days := 0;
    for y := 1970 to (if year < 1970 then 1970 else year)
      invariant days == YearDays(y)
    {
      days := days + (if IsLeap(y) then 366 else 365);
    }
    for mo := 1 to (if month < 1 then 1 else month)
      invariant days == YearDays(year) + MonthDays(year, mo)
    {
      days := days + DaysInMonth(mo);
      if mo == 2 && IsLeap(year) {
        days := days + 1;
      }
    }
    return (days + day - 1) * 86400 + h * 3600 + m * 60 + s;
  }

  // ---------------------------------------------------------------- the calendar

  function NextDay(d: Date): Date
    requires Valid(d)
  {
    if d.day < MonthLength(d.year, d.month) then d.(day := d.day + 1)
    else if d.month < 12 then Date(d.year, d.month + 1, 1)
    else Date(d.year + 1, 1, 1)
  }

  lemma WholeYear(y: nat)
    ensures MonthDays(y, 13) == YearLength(y)
  {
    hide IsLeap;
    assert MonthDays(y, 2) == 31;
    assert MonthDays(y, 3) == 31 + MonthLength(y, 2);
    assert MonthDays(y, 5) == MonthDays(y, 3) + 61;
    assert MonthDays(y, 7) == MonthDays(y, 5) + 61;
    assert MonthDays(y, 9) == MonthDays(y, 7) + 62;
    assert MonthDays(y, 11) == MonthDays(y, 9) + 61;
    assert MonthDays(y, 13) == MonthDays(y, 11) + 61;
  }

  /** The first of January 1970 is day 0, and every day's number is one more than the day's before. */
  lemma DaysAreCounted(d: Date)
    requires Valid(d)
    ensures DayNumber(Date(1970, 1, 1)) == 0
    ensures Valid(NextDay(d)) && DayNumber(NextDay(d)) == DayNumber(d) + 1
  {
    hide IsLeap;
    WholeYear(d.year);
  }

  /** Leap days in the years up to y, by the Gregorian rule. */
  function LeapsTo(y: nat): int {
    y / 4 - y / 100 + y / 400
  }

  lemma Floor(y: nat, k: nat)
    requires k > 0 && y > 0
    ensures y / k == (y - 1) / k + if y % k == 0 then 1 else 0
  {
    var q, r := (y - 1) / k, (y - 1) % k;
    assert y - 1 == q * k + r;
    if r == k - 1 {
      assert y == (q + 1) * k;
      Quotient(y, k, q + 1, 0);
    } else {
      Quotient(y, k, q, r + 1);
    }
  }

  lemma Quotient(y: nat, k: nat, q: nat, r: nat)
    requires k > 0 && y == q * k + r && r < k
    ensures y / k == q && y % k == r
  {
    var d := y / k - q;
    assert y == (y / k) * k + y % k;
    assert d * k == r - y % k;
    AtLeastOnce(d, k);
  }

  lemma AtLeastOnce(d: int, k: int)
    requires k > 0
    ensures d >= 1 ==> d * k >= k
    ensures d <= -1 ==> d * k <= -k
  {}

  lemma LeapStep(y: nat)
    requires y > 0
    ensures LeapsTo(y) == LeapsTo(y - 1) + if IsLeap(y) then 1 else 0
  {
    Floor(y, 4);
    Floor(y, 100);
    Floor(y, 400);
    Centuries(y);
  }

  lemma Centuries(y: nat)
    ensures y % 400 == 0 ==> y % 100 == 0
    ensures y % 100 == 0 ==> y % 4 == 0
  {
    if y % 400 == 0 {
      Quotient(y, 100, 4 * (y / 400), 0);
    }
    if y % 100 == 0 {
      Quotient(y, 4, 25 * (y / 100), 0);
    }
  }

  lemma {:induction false} YearDaysClosed(y: nat)
    requires y >= 1970
    ensures YearDays(y) == 365 * (y - 1970) + LeapsTo(y - 1) - LeapsTo(1969)
  {
    hide IsLeap, LeapsTo;
    if y > 1970 {
      YearDaysClosed(y - 1);
      LeapStep(y - 1);
    }
  }

  /** The closed proleptic Gregorian day count, years beginning in March. */
  function Gregorian(d: Date): int
    requires d.year >= 1 && 1 <= d.month <= 12
  {
    var y := if d.month <= 2 then d.year - 1 else d.year;
    var mp := if d.month <= 2 then d.month + 9 else d.month - 3;
    365 * y + LeapsTo(y) + (153 * mp + 2) / 5 + d.day - 1 - 719468
  }

  lemma MonthTable(y: nat, mo: nat)
    requires 1 <= mo <= 12
    ensures var mp := if mo <= 2 then mo + 9 else mo - 3;
      MonthDays(y, mo) == (153 * mp + 2) / 5 + if mo <= 2 then -306 else if IsLeap(y) then 60 else 59
  {
    hide IsLeap;
    if mo > 1 {
      MonthTable(y, mo - 1);
    }
  }

  /** The two loops compute the closed day count, from 1970 on. */
  lemma LoopsAreGregorian(d: Date)
    requires d.year >= 1970 && 1 <= d.month <= 12
    ensures DayNumber(d) == Gregorian(d)
  {
    hide IsLeap, LeapsTo, MonthDays, YearDays;
    YearDaysClosed(d.year);
    LeapStep(d.year);
    MonthTable(d.year, d.month);
    Base();
  }

  lemma Base()
    ensures LeapsTo(1969) == 477
  {}

  // ---------------------------------------------------------------- order

  datatype Instant = Instant(date: Date, h: nat, m: nat, s: nat)

  predicate ValidInstant(i: Instant) {
    Valid(i.date) && i.h < 24 && i.m < 60 && i.s < 60
  }

  predicate DateBefore(a: Date, b: Date) {
    a.year < b.year || (a.year == b.year && (a.month < b.month || (a.month == b.month && a.day < b.day)))
  }

  predicate Before(a: Instant, b: Instant) {
    DateBefore(a.date, b.date)
    || (a.date == b.date && (a.h < b.h || (a.h == b.h && (a.m < b.m || (a.m == b.m && a.s < b.s)))))
  }

  function Stamp(i: Instant): int
    requires i.date.month <= 13
  {
    DayNumber(i.date) * 86400 + i.h * 3600 + i.m * 60 + i.s
  }

  lemma {:induction false} LaterYear(y: nat, z: nat)
    requires 1970 <= y < z
    ensures YearDays(y) + YearLength(y) <= YearDays(z)
    decreases z
  {
    if z > y + 1 {
      LaterYear(y, z - 1);
    }
  }

  lemma {:induction false} LaterMonth(y: nat, mo: nat, mp: nat)
    requires 1 <= mo < mp <= 13
    ensures MonthDays(y, mo) + MonthLength(y, mo) <= MonthDays(y, mp)
    decreases mp
  {
    if mp > mo + 1 {
      LaterMonth(y, mo, mp - 1);
    }
  }

  lemma DateOrder(a: Date, b: Date)
    requires Valid(a) && Valid(b) && DateBefore(a, b)
    ensures DayNumber(a) < DayNumber(b)
  {
    hide MonthLength, YearLength;
    if a.year < b.year {
      LaterYear(a.year, b.year);
      LaterMonth(a.year, a.month, 13);
      WholeYear(a.year);
    } else if a.month < b.month {
      LaterMonth(a.year, a.month, b.month);
    }
  }

  /** Time stamps are strictly monotone, so they tell any two instants apart. */
  lemma StampsInOrder(a: Instant, b: Instant)
    requires ValidInstant(a) && ValidInstant(b) && Before(a, b)
    ensures Stamp(a) < Stamp(b)
  {
    hide DayNumber, Valid;
    ValidMonth(a.date);
    ValidMonth(b.date);
    if DateBefore(a.date, b.date) {
      DateOrder(a.date, b.date);
    }
  }

  lemma ValidMonth(d: Date)
    requires Valid(d)
    ensures d.month <= 12
  {}

  /** The cast to uint32_t (NmeaParser.cpp:146, 184) loses nothing before the year 2106. */
  lemma FitsUint32(i: Instant)
    requires ValidInstant(i) && i.date.year < 2106
    ensures 0 <= Stamp(i) < 0x1_0000_0000
  {
    var d := i.date;
    LaterMonth(d.year, d.month, 13);
    WholeYear(d.year);
    LaterYear(d.year, 2106);
    YearDaysClosed(2106);
    Base();
    assert LeapsTo(2105) == 510;
  }
}
