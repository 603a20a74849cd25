/** The proleptic Gregorian calendar as day numbers, and the dates of a request. */
module Calendar {

  datatype Date = Date(year: int, month: int, day: int)

  /** RFC 3339, Appendix C. */
  predicate Leap(year: int) {
    year % 4 == 0 && (year % 100 != 0 || year % 400 == 0)
  }

  /** RFC 3339, section 5.7. */
  function DaysIn(year: int, month: int): int {
    if month == 2 then (if Leap(year) then 29 else 28)
    else if month == 4 || month == 6 || month == 9 || month == 11 then 30
    else 31
  }

  predicate ValidDate(d: Date) {
    1 <= d.month <= 12 && 1 <= d.day <= DaysIn(d.year, d.month)
  }

  /** Days before the first of January, counted from the first of January of year one. */
  function DaysBeforeYear(year: int): int {
    365 * (year - 1) + (year - 1) / 4 - (year - 1) / 100 + (year - 1) / 400
  }

  function DaysBeforeMonth(year: int, month: int): int
    requires 1 <= month <= 13
  {
    if month == 1 then 0 else DaysBeforeMonth(year, month - 1) + DaysIn(year, month - 1)
  }

  /** time.Date with any month and day: both overflow into the next larger unit. */
  function DayNumber(year: int, month: int, day: int): int {
    var y, m := year + (month - 1) / 12, (month - 1) % 12 + 1;
    DaysBeforeYear(y) + DaysBeforeMonth(y, m) + day - 1
  }

  function Number(d: Date): int {
    DayNumber(d.year, d.month, d.day)
  }

  lemma LeapDays(year: int)
    ensures year / 4 == (year - 1) / 4 + if year % 4 == 0 then 1 else 0
    ensures year / 100 == (year - 1) / 100 + if year % 100 == 0 then 1 else 0
    ensures year / 400 == (year - 1) / 400 + if year % 400 == 0 then 1 else 0
    ensures (year % 400 == 0 ==> year % 100 == 0) && (year % 100 == 0 ==> year % 4 == 0)
  {
  }

  lemma YearLength(year: int)
    ensures DaysBeforeYear(year + 1) == DaysBeforeYear(year) + (if Leap(year) then 366 else 365)
    ensures DaysBeforeMonth(year, 13) == if Leap(year) then 366 else 365
  {
    LeapDays(year);
    MonthTable(year);
  }

  lemma MonthTable(year: int)
    ensures var f := DaysIn(year, 2);
            DaysBeforeMonth(year, 1) == 0 && DaysBeforeMonth(year, 2) == 31
            && DaysBeforeMonth(year, 3) == 31 + f && DaysBeforeMonth(year, 4) == 62 + f
            && DaysBeforeMonth(year, 5) == 92 + f && DaysBeforeMonth(year, 6) == 123 + f
            && DaysBeforeMonth(year, 7) == 153 + f && DaysBeforeMonth(year, 8) == 184 + f
            && DaysBeforeMonth(year, 9) == 215 + f && DaysBeforeMonth(year, 10) == 245 + f
            && DaysBeforeMonth(year, 11) == 276 + f && DaysBeforeMonth(year, 12) == 306 + f
            && DaysBeforeMonth(year, 13) == 337 + f
  {
    assert DaysBeforeMonth(year, 2) == 31;
    assert DaysBeforeMonth(year, 4) == DaysBeforeMonth(year, 2) + DaysIn(year, 2) + 31;
    assert DaysBeforeMonth(year, 6) == DaysBeforeMonth(year, 4) + 61;
    assert DaysBeforeMonth(year, 8) == DaysBeforeMonth(year, 6) + 61;
    assert DaysBeforeMonth(year, 10) == DaysBeforeMonth(year, 8) + 61;
    assert DaysBeforeMonth(year, 12) == DaysBeforeMonth(year, 10) + 61;
  }

  lemma DayOfYear(year: int, month: int, day: int)
    requires 1 <= month <= 12
    ensures DayNumber(year, month, day) == DayNumber(year, 1, 1) + DaysBeforeMonth(year, month) + day - 1
  {
    assert (month - 1) / 12 == 0 && (month - 1) % 12 + 1 == month;
    assert (1 - 1) / 12 == 0 && (1 - 1) % 12 + 1 == 1;
    assert DaysBeforeMonth(year, 1) == 0;
  }

  lemma NumberParts(d: Date)
    requires ValidDate(d)
    ensures Number(d) + 1 == DaysBeforeYear(d.year) + DaysBeforeMonth(d.year, d.month) + d.day
  {
  }

  /** The last month of a year ends where the next year begins. */
  lemma YearEnds(year: int)
    ensures DaysBeforeYear(year) + DaysBeforeMonth(year, 12) + 31 == DaysBeforeYear(year + 1)
  {
    YearLength(year);
    MonthTable(year);
  }

  /** Every date is numbered one after the date before it: days, months and years have no gap. */
  lemma NextDay(d: Date)
    requires ValidDate(d)
    ensures Number(d) + 1 == if d.day < DaysIn(d.year, d.month) then Number(d.(day := d.day + 1))
                             else if d.month < 12 then Number(Date(d.year, d.month + 1, 1))
                             else Number(Date(d.year + 1, 1, 1))
  {
    NumberParts(d);
    if d.day < DaysIn(d.year, d.month) {
      NumberParts(d.(day := d.day + 1));
    } else if d.month < 12 {
      NumberParts(Date(d.year, d.month + 1, 1));
    } else {
      NumberParts(Date(d.year + 1, 1, 1));
      YearEnds(d.year);
    }
  }

  // ---------------------------------------------------------------- order of dates

  predicate Before(a: Date, b: Date) {
    a.year < b.year || (a.year == b.year && (a.month < b.month || (a.month == b.month && a.day < b.day)))
  }

  lemma {:induction false} YearsGrow(a: int, b: int)
    requires a <= b
    ensures DaysBeforeYear(a) + 365 * (b - a) <= DaysBeforeYear(b)
    decreases b - a
  {
    if a < b {
      YearsGrow(a, b - 1);
      YearLength(b - 1);
    }
  }

  lemma {:induction false} MonthsGrow(year: int, a: int, b: int)
    requires 1 <= a <= b <= 13
    ensures DaysBeforeMonth(year, a) <= DaysBeforeMonth(year, b)
    ensures a < b ==> DaysBeforeMonth(year, a) + DaysIn(year, a) <= DaysBeforeMonth(year, b)
    decreases b - a
  {
    if a < b {
      MonthsGrow(year, a, b - 1);
    }
  }

  /** Day numbers order dates, so a day number names one date. */
  lemma NumberOrders(a: Date, b: Date)
    requires ValidDate(a) && ValidDate(b)
    ensures Before(a, b) <==> Number(a) < Number(b)
    ensures a == b <==> Number(a) == Number(b)
  {
    if Before(a, b) { NumberGrows(a, b); }
    if Before(b, a) { NumberGrows(b, a); }
  }

  /** Days before the date, as the parts it is numbered by. */
  lemma PartsGrow(a: Date, b: Date)
    requires ValidDate(a) && ValidDate(b) && Before(a, b)
    ensures DaysBeforeYear(a.year) + DaysBeforeMonth(a.year, a.month) + a.day
          < DaysBeforeYear(b.year) + DaysBeforeMonth(b.year, b.month) + b.day
  {
    if a.year < b.year {
      YearLength(a.year);
      YearsGrow(a.year + 1, b.year);
      MonthsGrow(a.year, a.month, 13);
      MonthsGrow(b.year, 1, b.month);
    } else {
      MonthsGrow(a.year, a.month, b.month);
    }
  }

  lemma NumberGrows(a: Date, b: Date)
    requires ValidDate(a) && ValidDate(b) && Before(a, b)
    ensures Number(a) < Number(b)
  {
    NumberParts(a);
    NumberParts(b);
    PartsGrow(a, b);
  }

  lemma PreviousDay(d: Date) returns (p: Date)
    requires ValidDate(d)
    ensures ValidDate(p) && Number(p) + 1 == Number(d)
  {
    p := if d.day > 1 then d.(day := d.day - 1)
         else if d.month > 1 then Date(d.year, d.month - 1, DaysIn(d.year, d.month - 1))
         else Date(d.year - 1, 12, 31);
    NextDay(p);
  }

  lemma FollowingDay(d: Date) returns (n: Date)
    requires ValidDate(d)
    ensures ValidDate(n) && Number(n) == Number(d) + 1
  {
    n := if d.day < DaysIn(d.year, d.month) then d.(day := d.day + 1)
         else if d.month < 12 then Date(d.year, d.month + 1, 1)
         else Date(d.year + 1, 1, 1);
    NextDay(d);
  }

  /** Every number is the number of a date. */
  lemma {:induction false} DateExists(number: int) returns (d: Date)
    ensures ValidDate(d) && Number(d) == number
    decreases if number < 0 then -number else number
  {
    if number == 0 {
      d := Date(1, 1, 1);
      NumberParts(d);
    } else if number > 0 {
      d := DateExists(number - 1);
      d := FollowingDay(d);
    } else {
      d := DateExists(number + 1);
      d := PreviousDay(d);
    }
  }

  ghost predicate IsDateOf(d: Date, number: int) {
    ValidDate(d) && Number(d) == number
  }

  /** The date of a day number. */
  ghost function DateOf(number: int): (d: Date)
    ensures IsDateOf(d, number)
  {
    SomeDate(number);
    var d :| IsDateOf(d, number); d
  }

  lemma SomeDate(number: int)
    ensures exists d :: IsDateOf(d, number)
  {
    var d := DateExists(number);
    assert IsDateOf(d, number);
  }

  /** Day zero of the next month is the last day of this one: its day of the month is the month's length. */
  function LastDay(year: int, month: int): int {
    DayNumber(year, month + 1, 0) - DayNumber(year, month, 1) + 1
  }

  lemma LastDayIsLength(year: int, month: int)
    requires 1 <= month <= 12
    ensures LastDay(year, month) == DaysIn(year, month)
  {
    DayOfYear(year, month, 1);
    if month < 12 {
      DayOfYear(year, month + 1, 0);
    } else {
      assert (13 - 1) / 12 == 1 && (13 - 1) % 12 + 1 == 1;
      YearEnds(year);
      DayOfYear(year, 1, 1);
    }
  }

  // ---------------------------------------------------------------- weekdays

  /** Sunday is zero; the first of January of year one was a Monday. */
  function Weekday(number: int): int {
    (number + 1) % 7
  }

  /** RFC 3339, Appendix B. */
  function WeekdayAppendixB(d: Date): int {
    var month := if d.month - 2 < 1 then d.month + 10 else d.month - 2;
    var year := if d.month - 2 < 1 then d.year - 1 else d.year;
    var cent, y := year / 100, year % 100;
    ((26 * month - 2) / 10 + d.day + y + y / 4 + cent / 4 + 5 * cent) % 7
  }

  /** A year split into centuries: the divisions by four hundred and by four see the century and the rest. */
  lemma CenturySplit(year: int)
    ensures var c, y := year / 100, year % 100;
            year / 4 == 25 * c + y / 4 && year / 400 == c / 4 && year == 100 * c + y
  {
  }

  /** The parts of both weekday computations, as plain numbers: modulo seven they agree. */
  lemma WeekdayParts(term: int, day: int, before: int, year0: int, year1: int, extra: int)
    requires (term - before + extra) % 7 == 0 && (year1 - year0 - extra) % 7 == 0
    ensures (term + day + year1) % 7 == (year0 + before + day) % 7
  {
    var a, b := (term - before + extra) / 7, (year1 - year0 - extra) / 7;
    assert term + day + year1 == year0 + before + day + 7 * (a + b);
  }

  lemma YearShift(year: int)
    ensures (DaysBeforeYear(year + 1) - DaysBeforeYear(year) - (DaysIn(year, 2) - 27)) % 7 == 0
  {
    YearLength(year);
  }

  /** The weekday of the day number agrees with the algorithm of Appendix B for every date. */
  lemma WeekdayAgrees(d: Date)
    requires ValidDate(d)
    ensures Weekday(Number(d)) == WeekdayAppendixB(d)
  {
    var shift := d.month - 2 < 1;
    var month := if shift then d.month + 10 else d.month - 2;
    var year := if shift then d.year - 1 else d.year;
    var term := (26 * month - 2) / 10;
    NumberParts(d);
    WeekdaySum(year, term + d.day);
    TermsAgree(d, term, year);
  }

  /** The month term, the day and the days before the next year agree with the number, modulo seven. */
  lemma TermsAgree(d: Date, term: int, year: int)
    requires 1 <= d.month <= 12
    requires term == (26 * (if d.month - 2 < 1 then d.month + 10 else d.month - 2) - 2) / 10
    requires year == if d.month - 2 < 1 then d.year - 1 else d.year
    ensures (term + d.day + DaysBeforeYear(year + 1)) % 7 == (DaysBeforeYear(d.year) + DaysBeforeMonth(d.year, d.month) + d.day) % 7
  {
    MonthsAppendixB(d.year, d.month);
    YearShift(d.year);
    WeekdayParts(term, d.day, DaysBeforeMonth(d.year, d.month), DaysBeforeYear(d.year), DaysBeforeYear(year + 1),
                 if d.month - 2 < 1 then 0 else DaysIn(d.year, 2) - 27);
  }

  /** Modulo seven, the century form of a year counts the days before its following year. */
  lemma WeekdaySum(year: int, rest: int)
    ensures var c, y := year / 100, year % 100;
            (rest + y + y / 4 + c / 4 + 5 * c) % 7 == (rest + DaysBeforeYear(year + 1)) % 7
  {
    CenturySplit(year);
    var c, y := year / 100, year % 100;
    assert DaysBeforeYear(year + 1) == 365 * (100 * c + y) + 25 * c + y / 4 - c + c / 4;
    assert DaysBeforeYear(year + 1) - (y + y / 4 + c / 4 + 5 * c) == 7 * (5217 * c + 52 * y);
  }

  /** Appendix B's month term by the month counted from March. */
  lemma MonthTerm(m: int)
    requires 1 <= m <= 12
    ensures (26 * m - 2) / 10 == [2, 5, 7, 10, 12, 15, 18, 20, 23, 25, 28, 31][m - 1]
  {
  }

  /** Counting months from March, Appendix B's month term is the days before the month, modulo seven. */
  lemma MonthsAppendixB(year: int, month: int)
    requires 1 <= month <= 12
    ensures var shift := month - 2 < 1;
            var m := if shift then month + 10 else month - 2;
            ((26 * m - 2) / 10 - DaysBeforeMonth(year, month) + if shift then 0 else DaysIn(year, 2) - 27) % 7 == 0
  {
    MonthTable(year);
    MonthTerm(if month - 2 < 1 then month + 10 else month - 2);
  }
}
