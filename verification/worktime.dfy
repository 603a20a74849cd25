/** Working time between two instants: the part of [start, end) inside a daily window of hours. */
module WorkTime {

  /** Instants are nanoseconds at the fixed offset of the start's location. */
  const HOUR: int := 3_600_000_000_000
  const DAY: int := 24 * HOUR

  predicate InWindow(t: int, h1: int, h2: int) {
    h1 * HOUR <= t % DAY < h2 * HOUR
  }

  /** How many instants of [start, end) have a time of day inside the window. */
  ghost function Instants(start: int, end: int, h1: int, h2: int): nat
    decreases end - start
  {
    if end <= start then 0
    else Instants(start, end - 1, h1, h2) + if InWindow(end - 1, h1, h2) then 1 else 0
  }

  ghost function InstantSet(start: int, end: int, h1: int, h2: int): set<int> {
    set t | start <= t < end && InWindow(t, h1, h2)
  }

  /** Counting one by one gives the size of the set of working instants. */
  lemma {:induction false} InstantsAreTheSet(start: int, end: int, h1: int, h2: int)
    ensures Instants(start, end, h1, h2) == |InstantSet(start, end, h1, h2)|
    decreases end - start
  {
    if end <= start {
      assert InstantSet(start, end, h1, h2) == {};
    } else {
      InstantsAreTheSet(start, end - 1, h1, h2);
      var before := InstantSet(start, end - 1, h1, h2);
      assert InstantSet(start, end, h1, h2) == if InWindow(end - 1, h1, h2) then before + {end - 1} else before;
    }
  }

  /** Additive at every split point. */
  lemma {:induction false} Additive(start: int, mid: int, end: int, h1: int, h2: int)
    requires start <= mid <= end
    ensures Instants(start, end, h1, h2) == Instants(start, mid, h1, h2) + Instants(mid, end, h1, h2)
    decreases end - mid
  {
    if mid < end {
      Additive(start, mid, end - 1, h1, h2);
    }
  }

  lemma {:induction false} Bounded(start: int, end: int, h1: int, h2: int)
    requires start <= end
    ensures Instants(start, end, h1, h2) <= end - start
    decreases end - start
  {
    if start < end {
      Bounded(start, end - 1, h1, h2);
    }
  }

  /** Monotone in the interval. */
  lemma Monotone(start: int, end: int, start': int, end': int, h1: int, h2: int)
    requires start' <= start <= end <= end'
    ensures Instants(start, end, h1, h2) <= Instants(start', end', h1, h2)
  {
    Additive(start', start, end', h1, h2);
    Additive(start, end, end', h1, h2);
  }

  // ---------------------------------------------------------------- closed form

  function Clamp(x: int, lo: int, hi: int): int {
    if x < lo then lo else if x > hi then hi else x
  }

  /** Working time elapsed since the origin: whole days, then the part of the current day. */
  function Elapsed(t: int, h1: int, h2: int): int {
    t / DAY * ((h2 - h1) * HOUR) + Clamp(t % DAY - h1 * HOUR, 0, (h2 - h1) * HOUR)
  }

  lemma NextInstant(t: int)
    ensures if t % DAY == DAY - 1 then (t + 1) / DAY == t / DAY + 1 && (t + 1) % DAY == 0
            else (t + 1) / DAY == t / DAY && (t + 1) % DAY == t % DAY + 1
  {
  }

  lemma ElapsedStep(t: int, h1: int, h2: int)
    requires 0 <= h1 < h2 <= 24
    ensures Elapsed(t + 1, h1, h2) == Elapsed(t, h1, h2) + if InWindow(t, h1, h2) then 1 else 0
  {
    var w := (h2 - h1) * HOUR;
    NextInstant(t);
    assert (t / DAY + 1) * w == t / DAY * w + w;
  }

  /** The count is a difference of closed forms. */
  lemma {:induction false} ClosedForm(start: int, end: int, h1: int, h2: int)
    requires 0 <= h1 < h2 <= 24 && start <= end
    ensures Instants(start, end, h1, h2) == Elapsed(end, h1, h2) - Elapsed(start, h1, h2)
    decreases end - start
  {
    if start < end {
      ClosedForm(start, end - 1, h1, h2);
      ElapsedStep(end - 1, h1, h2);
    }
  }

  /** Within one day the count is the overlap of the interval with the window. */
  lemma OneDay(day: int, from: int, to: int, h1: int, h2: int)
    requires 0 <= h1 < h2 <= 24 && day % DAY == 0 && day <= from <= to <= day + DAY
    ensures var lo := if from > day + h1 * HOUR then from else day + h1 * HOUR;
            var hi := if to < day + h2 * HOUR then to else day + h2 * HOUR;
            Instants(from, to, h1, h2) == if hi > lo then hi - lo else 0
  {
    ClosedForm(from, to, h1, h2);
    ElapsedInDay(day, from, h1, h2);
    ElapsedInDay(day, to, h1, h2);
  }

  lemma ElapsedInDay(day: int, t: int, h1: int, h2: int)
    requires 0 <= h1 < h2 <= 24 && day % DAY == 0 && day <= t <= day + DAY
    ensures Elapsed(t, h1, h2) == day / DAY * ((h2 - h1) * HOUR) + Clamp(t - day - h1 * HOUR, 0, (h2 - h1) * HOUR)
  {
    var w := (h2 - h1) * HOUR;
    if t == day + DAY {
      assert t / DAY == day / DAY + 1 && t % DAY == 0;
      assert (day / DAY + 1) * w == day / DAY * w + w;
    } else {
      assert t / DAY == day / DAY && t % DAY == t - day;
    }
  }

  function StartOfDay(t: int): int {
    t - t % DAY
  }

  function Max(a: int, b: int): int { if a > b then a else b }

  function Min(a: int, b: int): int { if a < b then a else b }

  lemma Midnights(t: int)
    ensures StartOfDay(t) % DAY == 0 && StartOfDay(t) <= t < StartOfDay(t) + DAY
    ensures t % DAY == 0 ==> (t + DAY) % DAY == 0
  {
    assert t == t / DAY * DAY + t % DAY;
    assert t % DAY == 0 ==> t + DAY == (t / DAY + 1) * DAY;
  }

  lemma DayBounds(t: int, day: int)
    requires day % DAY == 0 && StartOfDay(t) <= day
    ensures StartOfDay(t) == day || t < day
  {
    var k := day / DAY;
    assert day == k * DAY && t == t / DAY * DAY + t % DAY;
  }

  /** The overlap of one day's window with the interval. */
  method DayOverlap(day: int, start: int, end: int, h1: int, h2: int) returns (overlap: int)
    requires 0 <= h1 < h2 <= 24 && start < end && day % DAY == 0
    requires start < day + DAY && day <= end
    ensures overlap == Instants(Max(start, day), Min(end, day + DAY), h1, h2)
  {
    var overlapStart := day + h1 * HOUR;
    if start > overlapStart {
      overlapStart := start;
    }
    var overlapEnd := day + h2 * HOUR;
    if end < overlapEnd {
      overlapEnd := end;
    }
    overlap := 0;
    if overlapEnd > overlapStart {
      overlap := overlapEnd - overlapStart;
    }
    OneDay(day, Max(start, day), Min(end, day + DAY), h1, h2);
  }

  /** Another day's overlap takes the count from one day boundary to the next. */
  lemma OneMoreDay(day: int, start: int, end: int, h1: int, h2: int)
    requires start < end && start < day + DAY && day <= end
    ensures Instants(start, Max(start, Min(end, day)), h1, h2) + Instants(Max(start, day), Min(end, day + DAY), h1, h2)
         == Instants(start, Max(start, Min(end, day + DAY)), h1, h2)
  {
    Additive(start, Max(start, day), Min(end, day + DAY), h1, h2);
  }

  /** One turn of the loop. */
  method AddDay(dayCursor: int, start: int, end: int, h1: int, h2: int, total: int) returns (total': int)
    requires 0 <= h1 < h2 <= 24 && start < end && dayCursor % DAY == 0
    requires start < dayCursor + DAY && dayCursor <= end
    requires total == Instants(start, Max(start, Min(end, dayCursor)), h1, h2)
    ensures total' == Instants(start, Max(start, Min(end, dayCursor + DAY)), h1, h2)
    ensures (dayCursor + DAY) % DAY == 0
  {
    var overlap := DayOverlap(dayCursor, start, end, h1, h2);
    OneMoreDay(dayCursor, start, end, h1, h2);
    Midnights(dayCursor);
    total' := total + overlap;
  }

  /** The day-by-day overlap loop computes exactly the working instants of the interval. */
  method WorkingTimeWithinDailyWindow(start: int, end: int, h1: int, h2: int) returns (total: int)
    requires 0 <= h1 && h2 <= 24
    ensures total == Instants(start, end, h1, h2)
  {
    if end <= start || h2 <= h1 {
      EmptyWindow(start, end, h1, h2);
      return 0;
    }
    Midnights(start);
    Midnights(end);
    total := SumDays(StartOfDay(start), StartOfDay(end), start, end, h1, h2);
  }

  method SumDays(firstDay: int, lastDay: int, start: int, end: int, h1: int, h2: int) returns (total: int)
    requires 0 <= h1 < h2 <= 24 && start < end && firstDay % DAY == 0
    requires firstDay <= start < firstDay + DAY && lastDay == StartOfDay(end) <= end
    ensures total == Instants(start, end, h1, h2)
  {
    var dayCursor := firstDay;
    total := 0;
    while dayCursor <= lastDay
      invariant dayCursor % DAY == 0 && start < dayCursor + DAY
      invariant total == Instants(start, Max(start, Min(end, dayCursor)), h1, h2)
      decreases lastDay - dayCursor
    {
      total := AddDay(dayCursor, start, end, h1, h2, total);
      dayCursor := dayCursor + DAY;
    }
    DayBounds(end, dayCursor);
  }

  lemma {:induction false} EmptyWindow(start: int, end: int, h1: int, h2: int)
    requires end <= start || h2 <= h1
    ensures Instants(start, end, h1, h2) == 0
    decreases end - start
  {
    if start < end {
      EmptyWindow(start, end - 1, h1, h2);
    }
  }
}
