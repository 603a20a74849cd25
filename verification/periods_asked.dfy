/** That the windows are those of the period asked for: their ends as dates, for every kind of request. */
module PeriodsAsked {
  import opened Text
  import opened Calendar
  import opened DateText
  import opened Periods

  // ---------------------------------------------------------------- which kind is asked for

  predicate Says(q: Query, kind: string) {
    Lower(Trim(q.analysis)) == kind
  }

  /** No kind is named; then the fields that are filled in tell. */
  predicate SaysNothing(q: Query) {
    Blank(q.analysis)
  }

  predicate AsksCustom(q: Query) {
    Says(q, "custom") || (SaysNothing(q) && (!Blank(q.from) || !Blank(q.to)))
  }

  predicate AsksMonthly(q: Query) {
    Says(q, "monthly")
    || (SaysNothing(q) && Blank(q.from) && Blank(q.to) && Blank(q.date) && q.year > 0 && 1 <= q.month <= 12)
  }

  predicate AsksYearly(q: Query) {
    Says(q, "yearly")
    || (SaysNothing(q) && Blank(q.from) && Blank(q.to) && Blank(q.date) && q.year > 0 && !(1 <= q.month <= 12))
  }

  // ---------------------------------------------------------------- the dates meant

  /** A date that can be read, or else another one. */
  function DateOr(raw: string, fallback: Date): Date {
    match ParseDate(Trim(raw))
    case Some(d) => d
    case None => fallback
  }

  function YearMeant(q: Query, reference: Date): int {
    if q.year > 0 then q.year else reference.year
  }

  function MonthMeant(q: Query, reference: Date): int {
    if 1 <= q.month <= 12 then q.month else reference.month
  }

  /** This day of that month, or the month's last day if it has fewer. */
  predicate DayOrLast(d: Date, year: int, month: int, day: int) {
    d.year == year && d.month == month && d.day == if day <= DaysIn(year, month) then day else DaysIn(year, month)
  }

  lemma DateOfNumber(d: Date)
    requires ValidDate(d)
    ensures DateOf(Number(d)) == d
  {
    NumberOrders(DateOf(Number(d)), d);
  }

  lemma ClampedDate(year: int, month: int, day: int)
    requires 1 <= month <= 12 && day >= 1
    ensures DayOrLast(DateOf(DayNumber(year, month, ClampDay(year, month, day))), year, month, day)
  {
    LastDayIsLength(year, month);
    ClampInMonth(year, month, day);
    DateOfNumber(Date(year, month, ClampDay(year, month, day)));
  }

  lemma FirstOfMonth(year: int, month: int)
    requires 1 <= month <= 12
    ensures DateOf(DayNumber(year, month, 1)) == Date(year, month, 1)
  {
    DateOfNumber(Date(year, month, 1));
  }

  /** The month right before another. */
  predicate MonthBefore(py: int, pm: int, year: int, month: int) {
    1 <= pm <= 12 && 12 * py + pm == 12 * year + month - 1
  }

  lemma MonthBeforeIs(py: int, pm: int, year: int, month: int)
    requires 1 <= month <= 12 && MonthBefore(py, pm, year, month)
    ensures if month == 1 then py == year - 1 && pm == 12 else py == year && pm == month - 1
  {
  }

  lemma MonthFollows(py: int, pm: int, year: int, month: int)
    requires 1 <= pm <= 12 && if pm == 12 then year == py + 1 && month == 1 else year == py && month == pm + 1
    ensures Number(Date(py, pm, DaysIn(py, pm))) + 1 == Number(Date(year, month, 1))
  {
    NextDay(Date(py, pm, DaysIn(py, pm)));
  }

  /** It ends on the day before the other begins. */
  lemma MonthBeforeEnds(py: int, pm: int, year: int, month: int)
    requires 1 <= month <= 12 && MonthBefore(py, pm, year, month)
    ensures DateOf(Number(Date(year, month, 1)) - 1) == Date(py, pm, DaysIn(py, pm))
  {
    MonthBeforeIs(py, pm, year, month);
    MonthFollows(py, pm, year, month);
    DateOfNumber(Date(py, pm, DaysIn(py, pm)));
  }

  // ---------------------------------------------------------------- the windows

  lemma MonthlyResolved(q: Query, reference: Date)
    requires ValidDate(reference) && AsksMonthly(q)
    ensures Resolve(q, reference) == Monthly(YearMeant(q, reference), MonthMeant(q, reference), DateOr(q.date, reference).day)
  {
  }

  lemma YearlyResolved(q: Query, reference: Date)
    requires ValidDate(reference) && AsksYearly(q)
    ensures Resolve(q, reference) == Yearly(YearMeant(q, reference), DateOr(q.date, reference))
  {
  }

  /** From the first of a month to this day of it. */
  ghost predicate MonthToDay(from: int, to: int, year: int, month: int, day: int) {
    DateOf(from) == Date(year, month, 1) && DayOrLast(DateOf(to), year, month, day)
  }

  /** From the first of a year to this day and month of it. */
  ghost predicate YearToDay(from: int, to: int, year: int, month: int, day: int) {
    DateOf(from) == Date(year, 1, 1) && DayOrLast(DateOf(to), year, month, day)
  }

  /** A month and the month before it, each to the same day. */
  ghost predicate MonthWindows(w: Window, year: int, month: int, day: int) {
    MonthToDay(w.currentFrom, w.currentTo, year, month, day)
    && exists py, pm | MonthBefore(py, pm, year, month) :: MonthToDay(w.previousFrom, w.previousTo, py, pm, day)
  }

  ghost predicate YearWindows(w: Window, year: int, month: int, day: int) {
    YearToDay(w.currentFrom, w.currentTo, year, month, day) && YearToDay(w.previousFrom, w.previousTo, year - 1, month, day)
  }

  lemma MonthToDayDates(year: int, month: int, day: int)
    requires 1 <= month <= 12 && day >= 1
    ensures MonthToDay(DayNumber(year, month, 1), MonthToDate(year, month, day), year, month, day)
  {
    FirstOfMonth(year, month);
    ClampedDate(year, month, day);
  }

  lemma MonthlyDates(year: int, month: int, day: int)
    requires 1 <= month <= 12 && day >= 1
    ensures MonthWindows(Monthly(year, month, day), year, month, day)
  {
    var (py, pm) := PreviousYearMonth(year, month);
    MonthToDayDates(year, month, day);
    MonthToDayDates(py, pm, day);
    assert MonthBefore(py, pm, year, month);
  }

  lemma YearToDayDates(year: int, anchor: Date)
    requires ValidDate(anchor)
    ensures YearToDay(DayNumber(year, 1, 1), YearToDate(year, anchor), year, anchor.month, anchor.day)
  {
    FirstOfMonth(year, 1);
    ClampedDate(year, anchor.month, anchor.day);
  }

  lemma YearlyDates(year: int, anchor: Date)
    requires ValidDate(anchor)
    ensures YearWindows(Yearly(year, anchor), year, anchor.month, anchor.day)
  {
    YearToDayDates(year, anchor);
    YearToDayDates(year - 1, anchor);
  }

  /**
   A monthly request gets the month meant, from its first to the day of the anchor, and the month before
   it, from its first to the same day.
   */
  lemma MonthlyAsAsked(q: Query, reference: Date)
    requires ValidDate(reference) && AsksMonthly(q)
    ensures Resolve(q, reference).analysis == "monthly"
    ensures MonthWindows(Resolve(q, reference), YearMeant(q, reference), MonthMeant(q, reference), DateOr(q.date, reference).day)
  {
    MonthlyResolved(q, reference);
    MonthlyDates(YearMeant(q, reference), MonthMeant(q, reference), DateOr(q.date, reference).day);
  }

  /** A yearly request gets the year meant, and the one before, each from its first day to the day and month of the anchor. */
  lemma YearlyAsAsked(q: Query, reference: Date)
    requires ValidDate(reference) && AsksYearly(q)
    ensures Resolve(q, reference).analysis == "yearly"
    ensures YearWindows(Resolve(q, reference), YearMeant(q, reference), DateOr(q.date, reference).month, DateOr(q.date, reference).day)
  {
    YearlyResolved(q, reference);
    YearlyDates(YearMeant(q, reference), DateOr(q.date, reference));
  }

  /** A custom request gets the two dates given, the earlier first, and as many days right before them. */
  lemma CustomAsAsked(q: Query, reference: Date)
    requires ValidDate(reference) && AsksCustom(q)
    ensures var w := Resolve(q, reference);
            var from := DateOr(q.from, reference);
            var to := DateOr(q.to, from);
            w.analysis == "custom" && w.previousTo == w.currentFrom - 1
            && (DateOf(w.currentFrom), DateOf(w.currentTo)) == (if Before(to, from) then (to, from) else (from, to))
            && (w.currentTo - w.currentFrom <= 106_751 ==> w.previousTo - w.previousFrom == w.currentTo - w.currentFrom)
            && (w.currentTo - w.currentFrom > 106_751 ==> w.previousTo - w.previousFrom == 106_751)
  {
    var from := DateOr(q.from, reference);
    var to := DateOr(q.to, from);
    DateOfNumber(from);
    DateOfNumber(to);
    NumberOrders(to, from);
    var (f, t) := CustomRange(q, reference);
    DurationLimit(t - f);
  }

  /** Any other request gets the day of the anchor and the day before. */
  lemma DailyAsAsked(q: Query, reference: Date)
    requires ValidDate(reference) && !AsksMonthly(q) && !AsksYearly(q) && !AsksCustom(q)
    ensures var w := Resolve(q, reference);
            w.analysis == "daily" && DateOf(w.currentFrom) == DateOr(q.date, reference) && w.currentTo == w.currentFrom
            && w.previousFrom == w.previousTo == w.currentFrom - 1
  {
    DateOfNumber(DateOr(q.date, reference));
  }
}
