/** Calendar days, counted from 1970-01-01. */
module Calendar {
  import opened Arithmetic

  datatype Date = Date(year: int, month: nat, day: nat)

  predicate ValidDate(d: Date) { 1 <= d.month <= 12 && 1 <= d.day <= 31 }

  function DaysIn(year: int, month: nat): nat {
    if month == 2 then (if year % 4 == 0 && (year % 100 != 0 || year % 400 == 0) then 29 else 28)
    else if month == 4 || month == 6 || month == 9 || month == 11 then 30
    else 31
  }

  /** AddDate(0, 0, 1). */
  function NextDay(d: Date): (n: Date)
    ensures ValidDate(d) ==> ValidDate(n) && n != d
  {
    if d.day < DaysIn(d.year, d.month) then d.(day := d.day + 1)
    else if d.month < 12 then Date(d.year, d.month + 1, 1)
    else Date(d.year + 1, 1, 1)
  }

  predicate OnCalendar(d: Date) { 1 <= d.month <= 12 && 1 <= d.day <= DaysIn(d.year, d.month) }

  predicate Earlier(a: Date, b: Date) {
    a.year < b.year || (a.year == b.year && (a.month < b.month || (a.month == b.month && a.day < b.day)))
  }

  /** The next day is the first day of the calendar after the given one. */
  lemma NextDayIsNext(d: Date, n: Date)
    requires OnCalendar(d)
    ensures n == NextDay(d) <==>
            OnCalendar(n) && Earlier(d, n) && forall x :: OnCalendar(x) && Earlier(d, x) ==> x == n || Earlier(n, x)
  {
    var next := NextDay(d);
    assert OnCalendar(next) && Earlier(d, next);
    if n != next && OnCalendar(n) && Earlier(d, n) {
      assert Earlier(next, n);
      assert !(next == n || Earlier(n, next));
    }
  }

  /** Days of the years before this one, in the Gregorian calendar. */
  function YearDays(year: int): int { 365 * year + year / 4 - year / 100 + year / 400 }

  /** Days since 1970-01-01, with years taken to begin in March. */
  function DayNumber(d: Date): int {
    YearDays(if d.month <= 2 then d.year - 1 else d.year) + (153 * ((d.month + 9) % 12) + 2) / 5 + d.day - 719_469
  }

  lemma Quarter(year: int)
    ensures year / 4 - (year - 1) / 4 == if year % 4 == 0 then 1 else 0
  {
    Step(year, 4);
  }

  lemma Century(year: int)
    ensures year / 100 - (year - 1) / 100 == if year % 100 == 0 then 1 else 0
    ensures year % 100 == 0 ==> year % 4 == 0
  {
    Step(year, 100);
    if year % 100 == 0 {
      Multiple(year, 4, 25);
    }
  }

  lemma FourCenturies(year: int)
    ensures year / 400 - (year - 1) / 400 == if year % 400 == 0 then 1 else 0
    ensures year % 400 == 0 ==> year % 100 == 0
  {
    Step(year, 400);
    if year % 400 == 0 {
      Multiple(year, 100, 4);
    }
  }

  /** A quotient goes up by one exactly at the multiples of its divisor. */
  lemma Step(n: int, d: int)
    requires d > 1
    ensures n / d - (n - 1) / d == if n % d == 0 then 1 else 0
  {
    Division(n, d);
    Division(n - 1, d);
    var q := n / d;
    if n % d == 0 {
      assert (q - 1) * d == q * d - d;
      QuotientUnique(n - 1, d, q - 1);
    } else {
      QuotientUnique(n - 1, d, q);
    }
  }

  lemma Multiple(n: int, d: int, c: int)
    requires d > 0 && c > 0 && d * c > 0 && n % (d * c) == 0
    ensures n % d == 0
  {
    var q := n / (d * c);
    Division(n, d * c);
    assert n == q * c * d by { assert q * (d * c) == q * c * d; }
    assert (q * c + 1) * d == q * c * d + d;
    QuotientUnique(n, d, q * c);
    Division(n, d);
  }

  lemma YearLength(year: int)
    ensures YearDays(year) - YearDays(year - 1) == 337 + DaysIn(year, 2)
  {
    Quarter(year);
    Century(year);
    FourCenturies(year);
  }

  /** The next day's number is the next number, through month ends, year ends and leap years. */
  lemma NextDayCounts(d: Date)
    requires OnCalendar(d)
    ensures OnCalendar(NextDay(d)) && DayNumber(NextDay(d)) == DayNumber(d) + 1
  {
    YearLength(d.year);
    hide YearDays;
    if d.day == DaysIn(d.year, d.month) && d.month != 2 {
      MonthLength(d.year, d.month);
    }
  }

  lemma MonthLength(year: int, month: nat)
    requires 1 <= month <= 12 && month != 2
    ensures var next := if month == 12 then 1 else month + 1;
            (153 * ((next + 9) % 12) + 2) / 5 == (153 * ((month + 9) % 12) + 2) / 5 + DaysIn(year, month)
  {
    if month < 7 {
      assert month == 1 || month == 3 || month == 4 || month == 5 || month == 6;
    } else {
      assert month == 7 || month == 8 || month == 9 || month == 10 || month == 11 || month == 12;
    }
  }

  /** Sunday is 0. */
  function Weekday(day: int): nat { (day + 4) % 7 }

  /** 1970-01-01 is day 0 and a Thursday, the weekdays go round, and so 2024-12-23 is a Monday. */
  lemma WeekdaysGoRound(day: int)
    ensures DayNumber(Date(1970, 1, 1)) == 0 && Weekday(0) == 4
    ensures Weekday(day + 1) == if Weekday(day) == 6 then 0 else Weekday(day) + 1
    ensures DayNumber(Date(2000, 3, 1)) == 11017 && DayNumber(Date(2024, 12, 23)) == 20080
    ensures Weekday(DayNumber(Date(2024, 12, 23))) == 1
  {
  }
}
