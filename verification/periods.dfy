/** The dashboard's comparison windows and its working days. */
module Periods {
  import opened Text
  import opened Finite
  import opened Calendar
  import opened DateText

  datatype Query = Query(analysis: string, month: int, year: int, date: string, from: string, to: string)

  /** Both windows, as day numbers, each inclusive at both ends. */
  datatype Window = Window(analysis: string, currentFrom: int, currentTo: int, previousFrom: int, previousTo: int)

  function ParseDashboardDate(raw: string): (r: Option<Date>)
    ensures r.Some? ==> ValidDate(r.value)
  {
    ParseDate(Trim(raw))
  }

  function Analysis(q: Query): string {
    var a := Lower(Trim(q.analysis));
    if a != "" then a
    else if !Blank(q.from) || !Blank(q.to) then "custom"
    else if !Blank(q.date) then "daily"
    else if q.year > 0 && 1 <= q.month <= 12 then "monthly"
    else if q.year > 0 then "yearly"
    else "daily"
  }

  function ClampDay(year: int, month: int, day: int): int {
    var d := if day < 1 then 1 else day;
    var last := LastDay(year, month);
    if d > last then last else d
  }

  function PreviousYearMonth(year: int, month: int): (int, int) {
    if month <= 1 then (year - 1, 12) else (year, month - 1)
  }

  const NANOS_PER_DAY: int := 86_400_000_000_000
  const MAX_DURATION: int := 9_223_372_036_854_775_807

  /** The days that a saturating time.Duration sees between two dates. */
  function DurationDays(days: int): int
    requires days >= 0
  {
    var nanos := days * NANOS_PER_DAY;
    (if nanos > MAX_DURATION then MAX_DURATION else nanos) / NANOS_PER_DAY
  }

  function YearToDate(year: int, anchor: Date): int {
    DayNumber(year, anchor.month, ClampDay(year, anchor.month, anchor.day))
  }

  function Yearly(year: int, anchor: Date): Window {
    Window("yearly", DayNumber(year, 1, 1), YearToDate(year, anchor), DayNumber(year - 1, 1, 1), YearToDate(year - 1, anchor))
  }

  function MonthToDate(year: int, month: int, day: int): int {
    DayNumber(year, month, ClampDay(year, month, day))
  }

  function Monthly(year: int, month: int, day: int): Window {
    var (prevYear, prevMonth) := PreviousYearMonth(year, month);
    Window("monthly", DayNumber(year, month, 1), MonthToDate(year, month, day),
           DayNumber(prevYear, prevMonth, 1), MonthToDate(prevYear, prevMonth, day))
  }

  function Custom(from: int, to: int): Window
    requires from <= to
  {
    var durationDays, previousTo := DurationDays(to - from) + 1, from - 1;
    Window("custom", from, to, previousTo - (durationDays - 1), previousTo)
  }

  function Daily(target: int): Window {
    Window("daily", target, target, target - 1, target - 1)
  }

  function TargetYear(q: Query, reference: Date): int {
    if q.year <= 0 then reference.year else q.year
  }

  function TargetMonth(q: Query, reference: Date): int {
    if q.month < 1 || q.month > 12 then reference.month else q.month
  }

  function Anchor(q: Query, reference: Date): (d: Date)
    requires ValidDate(reference)
    ensures ValidDate(d)
  {
    var date := ParseDashboardDate(q.date);
    if date.Some? then date.value else reference
  }

  function Resolve(q: Query, reference: Date): Window
    requires ValidDate(reference)
  {
    var anchor, analysis := Anchor(q, reference), Analysis(q);
    if analysis == "yearly" then Yearly(TargetYear(q, reference), anchor)
    else if analysis == "monthly" then Monthly(TargetYear(q, reference), TargetMonth(q, reference), anchor.day)
    else if analysis == "custom" then var (from, to) := CustomRange(q, reference); Custom(from, to)
    else Daily(Number(anchor))
  }

  /** The requested range: missing ends are filled in and a reversed range is turned round. */
  function CustomRange(q: Query, reference: Date): (r: (int, int))
    ensures r.0 <= r.1
  {
    var from, to := ParseDashboardDate(q.from), ParseDashboardDate(q.to);
    var f := Number(if from.Some? then from.value else reference);
    var t := if to.Some? then Number(to.value) else f;
    if t < f then (t, f) else (f, t)
  }

  // ---------------------------------------------------------------- what the windows satisfy

  lemma ClampInMonth(year: int, month: int, day: int)
    requires 1 <= month <= 12
    ensures ValidDate(Date(year, month, ClampDay(year, month, day)))
  {
    LastDayIsLength(year, month);
  }

  /** Not saturated below this many days between the two ends. */
  lemma DurationLimit(days: int)
    requires days >= 0
    ensures DurationDays(days) == if days <= 106_751 then days else 106_751
  {
    if days > 106_751 { assert days * NANOS_PER_DAY >= 106_752 * NANOS_PER_DAY; }
  }

  predicate InOrder(w: Window) {
    w.previousFrom <= w.previousTo < w.currentFrom <= w.currentTo
  }

  lemma YearToDateInYear(year: int, anchor: Date)
    requires ValidDate(anchor)
    ensures DayNumber(year, 1, 1) <= YearToDate(year, anchor) < DayNumber(year + 1, 1, 1)
  {
    ClampInMonth(year, anchor.month, anchor.day);
    MonthStarts(Date(year, anchor.month, ClampDay(year, anchor.month, anchor.day)));
  }

  lemma YearWindow(year: int, anchor: Date)
    requires ValidDate(anchor)
    ensures InOrder(Yearly(year, anchor))
  {
    YearToDateInYear(year, anchor);
    YearToDateInYear(year - 1, anchor);
  }

  lemma MonthStarts(d: Date)
    requires ValidDate(d)
    ensures DayNumber(d.year, 1, 1) <= DayNumber(d.year, d.month, 1) <= Number(d) < DayNumber(d.year + 1, 1, 1)
  {
    NumberOrders(Date(d.year, 1, 1), Date(d.year, d.month, 1));
    NumberOrders(d, Date(d.year + 1, 1, 1));
  }

  lemma MonthWindow(year: int, month: int, day: int)
    requires 1 <= month <= 12
    ensures InOrder(Monthly(year, month, day))
  {
    var (py, pm) := PreviousYearMonth(year, month);
    ClampInMonth(year, month, day);
    ClampInMonth(py, pm, day);
    MonthStarts(Date(year, month, ClampDay(year, month, day)));
    MonthStarts(Date(py, pm, ClampDay(py, pm, day)));
    NumberOrders(Date(py, pm, ClampDay(py, pm, day)), Date(year, month, 1));
  }

  lemma CustomWindow(from: int, to: int)
    requires from <= to
    ensures var w := Custom(from, to);
            InOrder(w) && w.previousTo + 1 == w.currentFrom
            && (w.previousTo - w.previousFrom == w.currentTo - w.currentFrom <==> w.currentTo - w.currentFrom <= 106_751)
  {
    DurationLimit(to - from);
  }

  /** The previous window always ends before the current one begins, and neither is empty. */
  lemma WindowsInOrder(q: Query, reference: Date)
    requires ValidDate(reference)
    ensures InOrder(Resolve(q, reference))
  {
    var anchor, analysis := Anchor(q, reference), Analysis(q);
    if analysis == "yearly" {
      YearWindow(TargetYear(q, reference), anchor);
    } else if analysis == "monthly" {
      MonthWindow(TargetYear(q, reference), TargetMonth(q, reference), anchor.day);
    } else if analysis == "custom" {
      var (from, to) := CustomRange(q, reference);
      CustomWindow(from, to);
    }
  }

  /** Custom windows touch; they are equally long exactly up to 106751 days between the ends. */
  lemma CustomWindows(q: Query, reference: Date)
    requires ValidDate(reference) && Analysis(q) == "custom"
    ensures var w := Resolve(q, reference);
            w.previousTo + 1 == w.currentFrom
            && (w.previousTo - w.previousFrom == w.currentTo - w.currentFrom <==> w.currentTo - w.currentFrom <= 106_751)
  {
    var (from, to) := CustomRange(q, reference);
    CustomWindow(from, to);
  }

  /** How many days of the year a year-to-date window covers. */
  function ToDateDays(year: int, anchor: Date): int
    requires 1 <= anchor.month <= 12
  {
    DaysBeforeMonth(year, anchor.month)
    + if anchor.day > DaysIn(year, anchor.month) then DaysIn(year, anchor.month) else anchor.day
  }

  lemma YearToDateLength(year: int, anchor: Date)
    requires ValidDate(anchor)
    ensures YearToDate(year, anchor) - DayNumber(year, 1, 1) == ToDateDays(year, anchor) - 1
  {
    LastDayIsLength(year, anchor.month);
    DayOfYear(year, anchor.month, ClampDay(year, anchor.month, anchor.day));
  }

  lemma ToDateDaysChange(year: int, anchor: Date)
    requires ValidDate(anchor)
    ensures var change := ToDateDays(year, anchor) - ToDateDays(year - 1, anchor);
            -1 <= change <= 1 && (Leap(year) == Leap(year - 1) ==> change == 0)
  {
    MonthTable(year);
    MonthTable(year - 1);
  }

  /** Year-to-date windows differ in length by at most one day, and only when exactly one year is leap. */
  lemma YearlyWindows(year: int, anchor: Date)
    requires ValidDate(anchor)
    ensures var w := Yearly(year, anchor);
            var change := (w.currentTo - w.currentFrom) - (w.previousTo - w.previousFrom);
            -1 <= change <= 1 && (Leap(year) == Leap(year - 1) ==> change == 0)
  {
    YearToDateLength(year, anchor);
    YearToDateLength(year - 1, anchor);
    ToDateDaysChange(year, anchor);
  }

  /** A printed date has no blank at either end. */
  lemma PrintedIsTrimmed(d: Date)
    requires ValidDate(d)
    ensures Trim(FormatDate(d)) == FormatDate(d)
  {
    var year := if d.year >= 0 then d.year else -d.year;
    PaddedFacts(year, 4, Power10(4));
    PaddedFacts(d.day, 2, Power10(2));
    var s, y, day := FormatDate(d), Padded(year, 4), Padded(d.day, 2);
    assert s[0] == if d.year >= 0 then y[0] else '-';
    assert s[|s| - 1] == day[|day| - 1];
    TrimOfClean(s);
  }

  lemma DateSurvivesPrinting(d: Date)
    requires ValidDate(d)
    ensures ParseDashboardDate(FormatDate(d)) == Some(d) <==> 0 <= d.year <= 9999
  {
    FormatThenParse(d);
    PrintedIsTrimmed(d);
  }

  /** The end of a window, printed and parsed again, is the same day. */
  ghost predicate Survives(number: int) {
    ParseDashboardDate(FormatDate(DateOf(number))) == Some(DateOf(number))
  }

  const FIRST_DAY := Date(0, 1, 1)
  const LAST_DAY := Date(9999, 12, 31)

  lemma SurvivesIf(number: int)
    ensures Survives(number) <==> Number(FIRST_DAY) <= number <= Number(LAST_DAY)
  {
    var d := DateOf(number);
    DateSurvivesPrinting(d);
    NumberOrders(d, FIRST_DAY);
    NumberOrders(LAST_DAY, d);
  }

  /**
   The windows are handed on as printed dates and parsed again: that keeps all four ends exactly when
   they lie in the years of four digits.
   */
  lemma WindowSurvivesPrinting(q: Query, reference: Date)
    requires ValidDate(reference)
    ensures var w := Resolve(q, reference);
            Survives(w.previousFrom) && Survives(w.previousTo) && Survives(w.currentFrom) && Survives(w.currentTo)
            <==> Number(FIRST_DAY) <= w.previousFrom && w.currentTo <= Number(LAST_DAY)
  {
    var w := Resolve(q, reference);
    WindowsInOrder(q, reference);
    SurvivesIf(w.previousFrom);
    SurvivesIf(w.previousTo);
    SurvivesIf(w.currentFrom);
    SurvivesIf(w.currentTo);
  }

  // ---------------------------------------------------------------- working days

  predicate IsSunday(year: int, month: int, day: int) {
    Weekday(DayNumber(year, month, day)) == 0
  }

  predicate IsOtherHoliday(year: int, month: int, day: int, holidays: set<string>) {
    ValidDate(Date(year, month, day)) && !IsSunday(year, month, day) && FormatDate(Date(year, month, day)) in holidays
  }

  /** The days of a month, up to one of them, that satisfy a condition. */
  ghost function DaysWith(last: int, wanted: int -> bool): set<int> {
    set d | 1 <= d <= last && wanted(d)
  }

  ghost function Sundays(year: int, month: int, last: int): set<int> {
    DaysWith(last, d => IsSunday(year, month, d))
  }

  ghost function OtherHolidays(year: int, month: int, last: int, holidays: set<string>): set<int> {
    DaysWith(last, d => IsOtherHoliday(year, month, d, holidays))
  }

  lemma NextDayWith(day: int, wanted: int -> bool)
    requires day >= 1
    ensures |DaysWith(day, wanted)| == |DaysWith(day - 1, wanted)| + if wanted(day) then 1 else 0
    ensures DaysWith(0, wanted) == {}
  {
    var before := DaysWith(day - 1, wanted);
    assert DaysWith(day, wanted) == if wanted(day) then before + {day} else before;
  }

  method WorkingDaysInMonth(year: int, month: int, holidays: set<string>) returns (workingDays: int)
    ensures year <= 0 || month < 1 || month > 12 ==> workingDays == 0
    ensures year > 0 && 1 <= month <= 12 ==>
              workingDays == DaysIn(year, month) - |Sundays(year, month, DaysIn(year, month))|
                             - |OtherHolidays(year, month, DaysIn(year, month), holidays)|
  {
    if year <= 0 || month < 1 || month > 12 {
      return 0;
    }
    var totalDays := LastDay(year, month);
    LastDayIsLength(year, month);
    workingDays := 0;
    var day := 1;
    NextDayWith(1, d => IsSunday(year, month, d));
    NextDayWith(1, d => IsOtherHoliday(year, month, d, holidays));
    while day <= totalDays
      invariant 1 <= day <= totalDays + 1
      invariant workingDays == day - 1 - |Sundays(year, month, day - 1)| - |OtherHolidays(year, month, day - 1, holidays)|
    {
      NextDayWith(day, d => IsSunday(year, month, d));
      NextDayWith(day, d => IsOtherHoliday(year, month, d, holidays));
      if !IsSunday(year, month, day) {
        if FormatDate(Date(year, month, day)) !in holidays {
          workingDays := workingDays + 1;
        }
      }
      day := day + 1;
    }
  }

  lemma {:induction false} SundayCount(year: int, month: int, last: nat)
    requires 1 <= month <= 12
    ensures var first := DayNumber(year, month, 1);
            |Sundays(year, month, last)| == (first + last) / 7 - first / 7
  {
    NextDayWith(if last == 0 then 1 else last, d => IsSunday(year, month, d));
    if last > 0 {
      SundayCount(year, month, last - 1);
      assert DayNumber(year, month, last) == DayNumber(year, month, 1) + last - 1;
    }
  }

  /** Without holidays a month has 24 to 27 working days. */
  lemma WorkingDayRange(year: int, month: int)
    requires 1 <= month <= 12
    ensures 24 <= DaysIn(year, month) - |Sundays(year, month, DaysIn(year, month))| <= 27
    ensures OtherHolidays(year, month, DaysIn(year, month), {}) == {}
  {
    SundayCount(year, month, DaysIn(year, month));
  }

  /** Each holiday text takes at most one working day away, and so many texts at most so many days. */
  lemma HolidaysTakeADayEach(year: int, month: int, last: int, holidays: set<string>)
    ensures |OtherHolidays(year, month, last, holidays)| <= |holidays|
  {
    var days := OtherHolidays(year, month, last, holidays);
    var text: int --> string := (d: int) requires ValidDate(Date(year, month, d)) => FormatDate(Date(year, month, d));
    forall a, b | a in days && b in days && text(a) == text(b) ensures a == b {
      DayTextsDiffer(Date(year, month, a), Date(year, month, b));
    }
    ImageSize<int, string>(days, text);
    SubsetSize(Image<int, string>(days, text), holidays);
  }
}
