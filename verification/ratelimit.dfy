/**
 The fixed-window rate limiter of one key: INCR, and EXPIRE after the first INCR of a lifetime,
 with any delay in between.
 */
module RateLimiter {
  import opened Text

  /** A counter without an expiry lives on until one is set. */
  datatype Counter = Counter(count: nat, expires: Option<int>)

  /** A counted request that was let through, and in which lifetime of the key. */
  datatype Admission = Admission(at: int, life: nat)

  /**
   The key, whether an EXPIRE is still to come, and what happened so far: starts of lifetimes, requests
   counted within the limit, all requests let through, and those let through only because the store failed.
   */
  datatype State = State(now: int, key: Option<Counter>, pending: bool, starts: seq<int>, admitted: seq<Admission>,
                         passed: seq<int>, failed: seq<int>)

  datatype Event = Request | IncrError | IncrLost | Expire | ExpireError | Tick(d: nat)

  predicate KeyLives(s: State) {
    s.key.Some? && (s.key.value.expires.None? || s.now < s.key.value.expires.value)
  }

  /** INCR: it opens a lifetime, for which an EXPIRE is then due, or counts on in the current one. */
  function Incremented(s: State, limit: nat): State {
    var current := if KeyLives(s) then s.key.value.count + 1 else 1;
    var s1 := if current == 1
              then s.(key := Some(Counter(1, None)), pending := true, starts := s.starts + [s.now])
              else s.(key := Some(s.key.value.(count := current)));
    if current > limit then s1 else s1.(admitted := s1.admitted + [Admission(s1.now, LastLife(s1))])
  }

  function Passing(s: State): State {
    s.(passed := s.passed + [s.now])
  }

  /** Let through although the limiter did not say so. */
  function PassingAnyway(s: State): State {
    s.(passed := s.passed + [s.now], failed := s.failed + [s.now])
  }

  /**
   One event. An INCR that fails lets its request through; one that is applied but whose reply is lost
   does so too, and no EXPIRE follows it.
   */
  function Step(s: State, e: Event, limit: nat, window: int): State {
    match e
    case Tick(d) => s.(now := s.now + d)
    case IncrError => PassingAnyway(s)
    case IncrLost =>
      var s1 := Incremented(s, limit).(pending := s.pending);
      if s1.admitted != s.admitted then Passing(s1) else PassingAnyway(s1)
    case ExpireError => s.(pending := false)
    case Expire =>
      if s.pending && KeyLives(s)
      then s.(pending := false, key := Some(s.key.value.(expires := Some(s.now + window))))
      else s.(pending := false)
    case Request =>
      var s1 := Incremented(s, limit);
      if s1.admitted != s.admitted then Passing(s1) else s1
  }

  function LastLife(s: State): nat {
    if s.starts == [] then 0 else |s.starts| - 1
  }

  /** Several events in a row. */
  function RunFrom(s: State, events: seq<Event>, limit: nat, window: int): State {
    if events == [] then s
    else Step(RunFrom(s, events[..|events| - 1], limit, window), events[|events| - 1], limit, window)
  }

  function Unused(start: int): State {
    State(start, None, false, [], [], [], [])
  }

  function Run(events: seq<Event>, start: int, limit: nat, window: int): State {
    RunFrom(Unused(start), events, limit, window)
  }

  function Count(a: seq<Admission>, p: Admission -> bool): nat {
    if a == [] then 0 else Count(a[..|a| - 1], p) + if p(a[|a| - 1]) then 1 else 0
  }

  function InLife(life: nat): Admission -> bool {
    (a: Admission) => a.life == life
  }

  function Within(from: int, window: int): Admission -> bool {
    (a: Admission) => from <= a.at < from + window
  }

  function Times(times: seq<int>, from: int, window: int): nat {
    if times == [] then 0
    else Times(times[..|times| - 1], from, window) + if from <= times[|times| - 1] < from + window then 1 else 0
  }

  lemma RunStep(s: State, events: seq<Event>, e: Event, limit: nat, window: int)
    ensures RunFrom(s, events + [e], limit, window) == Step(RunFrom(s, events, limit, window), e, limit, window)
  {
    assert (events + [e])[..|events|] == events;
  }

  lemma {:induction false} RunConcat(s: State, a: seq<Event>, b: seq<Event>, limit: nat, window: int)
    ensures RunFrom(s, a + b, limit, window) == RunFrom(RunFrom(s, a, limit, window), b, limit, window)
  {
    if b == [] {
      assert a + b == a;
    } else {
      RunConcat(s, a, b[..|b| - 1], limit, window);
      assert (a + b)[..|a + b| - 1] == a + b[..|b| - 1];
    }
  }

  // ---------------------------------------------------------------- the invariant

  /** Lifetimes of the key start at least a window apart. */
  ghost predicate Spaced(s: State, window: int) {
    (forall i, j | 0 <= i < j < |s.starts| :: s.starts[i] + window <= s.starts[j])
    && (forall i | 0 <= i < |s.starts| :: s.starts[i] <= s.now)
  }

  /** An admission lies between the start of its lifetime and the start of the next one. */
  ghost predicate Placed(s: State, a: Admission) {
    a.life < |s.starts| && s.starts[a.life] <= a.at <= s.now
    && (a.life + 1 < |s.starts| ==> a.at <= s.starts[a.life + 1])
  }

  ghost predicate AllPlaced(s: State) {
    forall i | 0 <= i < |s.admitted| :: Placed(s, s.admitted[i])
  }

  ghost predicate LivesInOrder(admitted: seq<Admission>) {
    forall i, j | 0 <= i < j < |admitted| :: admitted[i].life <= admitted[j].life
  }

  /** The request that opened this lifetime was admitted, at its start. */
  ghost predicate OpeningAdmitted(starts: seq<int>, admitted: seq<Admission>, k: nat) {
    k < |starts| ==> Admission(starts[k], k) in admitted
  }

  ghost predicate StartsAdmitted(starts: seq<int>, admitted: seq<Admission>) {
    forall k: nat :: OpeningAdmitted(starts, admitted, k)
  }

  /** Lifetimes hold their own admissions in order, the first at the very start. */
  ghost predicate Lifetimes(s: State, window: int) {
    Spaced(s, window) && AllPlaced(s) && LivesInOrder(s.admitted) && StartsAdmitted(s.starts, s.admitted)
  }

  /** An expiry is at least a window after the start of the current lifetime; a pending EXPIRE means there is none yet. */
  ghost predicate KeyInStep(s: State, window: int) {
    (s.key.None? <==> s.starts == [])
    && (s.pending ==> s.key.Some? && s.key.value.expires.None?)
    && (s.key.Some? ==> s.key.value.count >= 1)
    && (s.key.Some? && s.key.value.expires.Some? ==> s.starts[LastLife(s)] + window <= s.key.value.expires.value)
  }

  function Capped(count: nat, limit: nat): nat {
    if count <= limit then count else limit
  }

  /** The stored count is that of the current lifetime. */
  ghost predicate Counted(s: State, limit: nat) {
    (s.key.Some? ==> Count(s.admitted, InLife(LastLife(s))) == Capped(s.key.value.count, limit))
    && (forall life: nat :: Count(s.admitted, InLife(life)) <= limit)
  }

  ghost predicate Inv(s: State, limit: nat, window: int) {
    Lifetimes(s, window) && KeyInStep(s, window) && Counted(s, limit)
  }

  lemma CountAppend(a: seq<Admission>, x: Admission, p: Admission -> bool)
    ensures Count(a + [x], p) == Count(a, p) + if p(x) then 1 else 0
  {
    assert (a + [x])[..|a|] == a;
  }

  lemma {:induction false} CountNone(a: seq<Admission>, p: Admission -> bool)
    requires forall x | x in a :: !p(x)
    ensures Count(a, p) == 0
  {
    if a != [] {
      assert a[|a| - 1] in a;
      CountNone(a[..|a| - 1], p);
    }
  }

  lemma StartsAppend(starts: seq<int>, admitted: seq<Admission>, at: int)
    requires StartsAdmitted(starts, admitted)
    ensures StartsAdmitted(starts + [at], admitted + [Admission(at, |starts|)])
  {
    forall k: nat ensures OpeningAdmitted(starts + [at], admitted + [Admission(at, |starts|)], k) {
      assert OpeningAdmitted(starts, admitted, k);
    }
  }

  lemma MoreAdmitted(starts: seq<int>, admitted: seq<Admission>, a: Admission)
    requires StartsAdmitted(starts, admitted)
    ensures StartsAdmitted(starts, admitted + [a])
  {
    forall k: nat ensures OpeningAdmitted(starts, admitted + [a], k) {
      assert OpeningAdmitted(starts, admitted, k);
    }
  }

  lemma OrderAppend(s: State, a: Admission)
    requires AllPlaced(s) && LivesInOrder(s.admitted) && a.life >= LastLife(s)
    ensures LivesInOrder(s.admitted + [a])
  {
    forall i | 0 <= i < |s.admitted| ensures s.admitted[i].life <= a.life { assert Placed(s, s.admitted[i]); }
  }

  lemma PlacedWhenOpening(s: State, i: nat)
    requires AllPlaced(s) && i <= |s.admitted|
    ensures var a := Admission(s.now, |s.starts|);
            Placed(s.(starts := s.starts + [s.now], admitted := s.admitted + [a]), (s.admitted + [a])[i])
  {
    if i < |s.admitted| { assert Placed(s, s.admitted[i]); }
  }

  lemma SpacedWhenOpening(s: State, window: int)
    requires window > 0 && Spaced(s, window) && (s.starts != [] ==> s.starts[LastLife(s)] + window <= s.now)
    ensures Spaced(s.(starts := s.starts + [s.now]), window)
  {
    forall i | 0 <= i < |s.starts| ensures s.starts[i] + window <= s.now {
      if i < LastLife(s) { assert s.starts[i] + window <= s.starts[LastLife(s)]; }
    }
  }

  lemma OpenKeepsLifetimes(s: State, window: int)
    requires window > 0 && Lifetimes(s, window) && (s.starts != [] ==> s.starts[LastLife(s)] + window <= s.now)
    ensures Lifetimes(s.(starts := s.starts + [s.now], admitted := s.admitted + [Admission(s.now, |s.starts|)]), window)
  {
    var a := Admission(s.now, |s.starts|);
    var s' := s.(starts := s.starts + [s.now], admitted := s.admitted + [a]);
    SpacedWhenOpening(s, window);
    StartsAppend(s.starts, s.admitted, s.now);
    OrderAppend(s, a);
    forall i | 0 <= i < |s'.admitted| ensures Placed(s', s'.admitted[i]) { PlacedWhenOpening(s, i); }
  }

  /** Only starts, admissions and the clock matter to the lifetimes. */
  lemma SameLifetimes(s: State, s': State, window: int)
    requires Lifetimes(s, window) && s'.starts == s.starts && s'.admitted == s.admitted && s'.now >= s.now
    ensures Lifetimes(s', window)
  {
    forall i | 0 <= i < |s'.admitted| ensures Placed(s', s'.admitted[i]) { assert Placed(s, s.admitted[i]); }
  }

  /** An INCR that finds the key expired opens a lifetime and is within the limit. */
  lemma OpensLifetime(s: State, limit: nat, window: int)
    requires limit > 0 && window > 0 && Inv(s, limit, window) && !KeyLives(s)
    ensures Lifetimes(Incremented(s, limit), window) && KeyInStep(Incremented(s, limit), window)
  {
    var opening := s.(starts := s.starts + [s.now], admitted := s.admitted + [Admission(s.now, |s.starts|)]);
    OpenKeepsLifetimes(s, window);
    SameLifetimes(opening, Incremented(s, limit), window);
  }

  /** One more admission in the current lifetime. */
  lemma AdmitKeepsLifetimes(s: State, window: int)
    requires window > 0 && Lifetimes(s, window) && s.starts != []
    ensures Lifetimes(s.(admitted := s.admitted + [Admission(s.now, LastLife(s))]), window)
  {
    var a := Admission(s.now, LastLife(s));
    var s' := s.(admitted := s.admitted + [a]);
    MoreAdmitted(s.starts, s.admitted, a);
    OrderAppend(s, a);
    forall i | 0 <= i < |s'.admitted| ensures Placed(s', s'.admitted[i]) {
      if i < |s.admitted| { assert Placed(s, s.admitted[i]); }
    }
  }

  lemma LiveKeyInStep(s: State, limit: nat, window: int)
    requires KeyInStep(s, window) && KeyLives(s)
    ensures KeyInStep(Incremented(s, limit), window)
  {
  }

  lemma StaysInLifetime(s: State, limit: nat, window: int)
    requires limit > 0 && window > 0 && Lifetimes(s, window) && KeyInStep(s, window) && KeyLives(s)
    ensures Lifetimes(Incremented(s, limit), window) && KeyInStep(Incremented(s, limit), window)
  {
    LiveKeyInStep(s, limit, window);
    LiveRequest(s, limit, window);
    AdmitKeepsLifetimes(s, window);
    var admitting := s.(admitted := s.admitted + [Admission(s.now, LastLife(s))]);
    SameLifetimes(if s.key.value.count < limit then admitting else s, Incremented(s, limit), window);
  }

  lemma NewLifeUncounted(s: State, limit: nat, window: int)
    requires Lifetimes(s, window)
    ensures Count(s.admitted, InLife(|s.starts|)) == 0
  {
    forall x | x in s.admitted ensures !InLife(|s.starts|)(x) {
      var i :| 0 <= i < |s.admitted| && s.admitted[i] == x;
      assert Placed(s, s.admitted[i]);
    }
    CountNone(s.admitted, InLife(|s.starts|));
  }

  /** One more admission counts in its own lifetime only. */
  lemma AdmittedCounts(admitted: seq<Admission>, a: Admission, limit: nat)
    requires forall life: nat :: Count(admitted, InLife(life)) <= limit
    requires Count(admitted, InLife(a.life)) < limit
    ensures Count(admitted + [a], InLife(a.life)) == Count(admitted, InLife(a.life)) + 1
    ensures forall life: nat :: Count(admitted + [a], InLife(life)) <= limit
  {
    CountAppend(admitted, a, InLife(a.life));
    forall life: nat ensures Count(admitted + [a], InLife(life)) <= limit { CountAppend(admitted, a, InLife(life)); }
  }

  /** What a request does to a living counter. */
  lemma LiveRequest(s: State, limit: nat, window: int)
    requires KeyLives(s) && s.key.value.count >= 1
    ensures var s' := Incremented(s, limit);
            s'.starts == s.starts && s'.now == s.now && s'.key.Some? && s'.key.value.count == s.key.value.count + 1
            && s'.admitted == if s.key.value.count < limit then s.admitted + [Admission(s.now, LastLife(s))] else s.admitted
  {
  }

  lemma FirstRequest(s: State, limit: nat, window: int)
    requires !KeyLives(s) && limit > 0
    ensures var s' := Incremented(s, limit);
            s'.starts == s.starts + [s.now] && s'.key == Some(Counter(1, None))
            && s'.admitted == s.admitted + [Admission(s.now, |s.starts|)]
  {
  }

  lemma RequestKeepsCounted(s: State, limit: nat, window: int)
    requires limit > 0 && window > 0 && Lifetimes(s, window) && KeyInStep(s, window) && Counted(s, limit)
    ensures Counted(Incremented(s, limit), limit)
  {
    if KeyLives(s) {
      LiveRequest(s, limit, window);
      if s.key.value.count < limit { AdmittedCounts(s.admitted, Admission(s.now, LastLife(s)), limit); }
    } else {
      FirstRequest(s, limit, window);
      NewLifeUncounted(s, limit, window);
      AdmittedCounts(s.admitted, Admission(s.now, |s.starts|), limit);
    }
  }

  predicate Increments(e: Event) {
    e.Request? || e.IncrLost?
  }

  lemma QuietKey(s: State, e: Event, limit: nat, window: int)
    requires window > 0 && Spaced(s, window) && KeyInStep(s, window) && !Increments(e)
    ensures var s' := Step(s, e, limit, window);
            KeyInStep(s', window) && s'.starts == s.starts && s'.admitted == s.admitted && s'.now >= s.now
            && s'.key.Some? == s.key.Some? && (s.key.Some? ==> s'.key.value.count == s.key.value.count)
  {
  }

  lemma SameCounted(s: State, s': State, limit: nat)
    requires Counted(s, limit) && s'.starts == s.starts && s'.admitted == s.admitted
    requires s'.key.Some? == s.key.Some? && (s.key.Some? ==> s'.key.value.count == s.key.value.count)
    ensures Counted(s', limit)
  {
  }

  lemma QuietStep(s: State, e: Event, limit: nat, window: int)
    requires window > 0 && Inv(s, limit, window) && !Increments(e)
    ensures Inv(Step(s, e, limit, window), limit, window)
  {
    var s' := Step(s, e, limit, window);
    QuietKey(s, e, limit, window);
    SameLifetimes(s, s', window);
    SameCounted(s, s', limit);
  }

  lemma IncrementedInv(s: State, limit: nat, window: int)
    requires limit > 0 && window > 0 && Inv(s, limit, window)
    ensures Inv(Incremented(s, limit), limit, window)
  {
    RequestKeepsCounted(s, limit, window);
    if KeyLives(s) { StaysInLifetime(s, limit, window); } else { OpensLifetime(s, limit, window); }
  }

  /** The invariant survives losing sight of an EXPIRE that is due, and does not see who is let through. */
  lemma SameInv(s: State, s': State, limit: nat, window: int)
    requires Inv(s, limit, window) && s'.now == s.now && s'.key == s.key && s'.starts == s.starts && s'.admitted == s.admitted
    requires s'.pending ==> s.pending
    ensures Inv(s', limit, window)
  {
    SameLifetimes(s, s', window);
  }

  /** An EXPIRE that was due is still due after an INCR, for the counter it is due for lives on. */
  lemma PendingStays(s: State, limit: nat, window: int)
    requires KeyInStep(s, window) && s.pending
    ensures Incremented(s, limit).pending
  {
  }

  lemma StepKeepsInv(s: State, e: Event, limit: nat, window: int)
    requires limit > 0 && window > 0 && Inv(s, limit, window)
    ensures Inv(Step(s, e, limit, window), limit, window)
  {
    if Increments(e) {
      IncrementedInv(s, limit, window);
      if s.pending { PendingStays(s, limit, window); }
      SameInv(Incremented(s, limit), Step(s, e, limit, window), limit, window);
    } else {
      QuietStep(s, e, limit, window);
    }
  }

  lemma {:induction false} RunInvariant(events: seq<Event>, start: int, limit: nat, window: int)
    requires limit > 0 && window > 0
    ensures Inv(Run(events, start, limit, window), limit, window)
  {
    if events != [] {
      RunInvariant(events[..|events| - 1], start, limit, window);
      StepKeepsInv(Run(events[..|events| - 1], start, limit, window), events[|events| - 1], limit, window);
    }
  }

  // ---------------------------------------------------------------- who is let through

  lemma TimesAppend(times: seq<int>, t: int, from: int, window: int)
    ensures Times(times + [t], from, window) == Times(times, from, window) + if from <= t < from + window then 1 else 0
  {
    assert (times + [t])[..|times|] == times;
  }

  /** In any interval those let through are those within the limit and those whose INCR failed. */
  ghost predicate PassesSplit(s: State, from: int, window: int) {
    Times(s.passed, from, window) == Count(s.admitted, Within(from, window)) + Times(s.failed, from, window)
  }

  lemma IncrementedLog(s: State, limit: nat)
    ensures var s' := Incremented(s, limit);
            s'.now == s.now && s'.passed == s.passed && s'.failed == s.failed
            && (s'.admitted == s.admitted || (|s'.admitted| == |s.admitted| + 1
                && s'.admitted == s.admitted + [s'.admitted[|s.admitted|]] && s'.admitted[|s.admitted|].at == s.now))
  {
  }

  lemma StepSplits(s: State, e: Event, limit: nat, window: int, from: int)
    requires PassesSplit(s, from, window)
    ensures PassesSplit(Step(s, e, limit, window), from, window)
  {
    TimesAppend(s.passed, s.now, from, window);
    TimesAppend(s.failed, s.now, from, window);
    var s1 := Incremented(s, limit);
    IncrementedLog(s, limit);
    if s1.admitted != s.admitted { CountAppend(s.admitted, s1.admitted[|s.admitted|], Within(from, window)); }
  }

  lemma {:induction false} RunSplits(events: seq<Event>, start: int, limit: nat, window: int, from: int)
    ensures PassesSplit(Run(events, start, limit, window), from, window)
  {
    if events != [] {
      RunSplits(events[..|events| - 1], start, limit, window, from);
      StepSplits(Run(events[..|events| - 1], start, limit, window), events[|events| - 1], limit, window, from);
    }
  }

  // ---------------------------------------------------------------- the bounds

  /** Each lifetime of the key lets at most `limit` counted requests through. */
  lemma LifetimeBound(events: seq<Event>, start: int, limit: nat, window: int, life: nat)
    requires limit > 0 && window > 0
    ensures Count(Run(events, start, limit, window).admitted, InLife(life)) <= limit
  {
    RunInvariant(events, start, limit, window);
  }

  lemma {:induction false} CountSplit(a: seq<Admission>, p: Admission -> bool, q: Admission -> bool, r: Admission -> bool)
    requires forall x | x in a && p(x) :: q(x) || r(x)
    ensures Count(a, p) <= Count(a, q) + Count(a, r)
  {
    if a != [] {
      assert a[|a| - 1] in a;
      CountSplit(a[..|a| - 1], p, q, r);
    }
  }

  lemma {:induction false} CountMissing(a: seq<Admission>, p: Admission -> bool, q: Admission -> bool, x: Admission)
    requires x in a && q(x) && !p(x)
    requires forall y | y in a && p(y) :: q(y)
    ensures Count(a, p) + 1 <= Count(a, q)
  {
    var init, last := a[..|a| - 1], a[|a| - 1];
    assert a == init + [last];
    if x in init {
      CountMissing(init, p, q, x);
    } else {
      CountSplit(init, p, q, (y: Admission) => false);
      CountNone(init, (y: Admission) => false);
    }
  }

  /** Admissions less than a window apart belong to one lifetime or to two neighbouring ones. */
  lemma NeighbouringLives(s: State, limit: nat, window: int, i: nat, j: nat, from: int)
    requires Lifetimes(s, window) && window > 0 && i <= j < |s.admitted|
    requires Within(from, window)(s.admitted[i]) && Within(from, window)(s.admitted[j])
    ensures s.admitted[i].life <= s.admitted[j].life <= s.admitted[i].life + 1
    ensures s.admitted[j].life == s.admitted[i].life + 1 ==> s.starts[s.admitted[i].life] < from
  {
    assert Placed(s, s.admitted[i]) && Placed(s, s.admitted[j]);
  }

  lemma {:induction false} FirstWithin(a: seq<Admission>, from: int, window: int) returns (i: nat)
    ensures i <= |a| && (i < |a| ==> Within(from, window)(a[i])) && forall j | 0 <= j < i :: !Within(from, window)(a[j])
  {
    i := 0;
    while i < |a| && !Within(from, window)(a[i])
      invariant i <= |a| && forall j | 0 <= j < i :: !Within(from, window)(a[j])
    {
      i := i + 1;
    }
  }

  function WithinLife(from: int, window: int, life: nat): Admission -> bool {
    (a: Admission) => from <= a.at < from + window && a.life == life
  }

  lemma CountFewer(a: seq<Admission>, p: Admission -> bool, q: Admission -> bool)
    requires forall x | x in a && p(x) :: q(x)
    ensures Count(a, p) <= Count(a, q)
  {
    CountSplit(a, p, q, (x: Admission) => false);
    CountNone(a, (x: Admission) => false);
  }

  /** The admission that opened a lifetime before the interval is not counted in it. */
  lemma OpeningOutside(s: State, limit: nat, window: int, life: nat, from: int)
    requires limit > 0 && Inv(s, limit, window) && life < |s.starts| && s.starts[life] < from
    ensures Count(s.admitted, WithinLife(from, window, life)) + 1 <= Count(s.admitted, InLife(life))
  {
    assert OpeningAdmitted(s.starts, s.admitted, life);
    CountMissing(s.admitted, WithinLife(from, window, life), InLife(life), Admission(s.starts[life], life));
  }

  lemma SplitByIndex(a: seq<Admission>, p: Admission -> bool, q: Admission -> bool, r: Admission -> bool)
    requires forall j | 0 <= j < |a| :: p(a[j]) ==> q(a[j]) || r(a[j])
    ensures Count(a, p) <= Count(a, q) + Count(a, r)
  {
    CountSplit(a, p, q, r);
  }

  lemma InTwoLives(s: State, limit: nat, window: int, i: nat, j: nat, from: int)
    requires window > 0 && Lifetimes(s, window) && i < |s.admitted| && Within(from, window)(s.admitted[i])
    requires forall k | 0 <= k < i :: !Within(from, window)(s.admitted[k])
    requires j < |s.admitted| && Within(from, window)(s.admitted[j])
    ensures WithinLife(from, window, s.admitted[i].life)(s.admitted[j]) || WithinLife(from, window, s.admitted[i].life + 1)(s.admitted[j])
  {
    NeighbouringLives(s, limit, window, i, j, from);
  }

  /** All admissions in the interval belong to the lifetime of its first one or to the next. */
  lemma TwoLives(s: State, limit: nat, window: int, i: nat, from: int)
    requires window > 0 && Lifetimes(s, window) && i < |s.admitted| && Within(from, window)(s.admitted[i])
    requires forall j | 0 <= j < i :: !Within(from, window)(s.admitted[j])
    ensures var life := s.admitted[i].life;
            Count(s.admitted, Within(from, window))
            <= Count(s.admitted, WithinLife(from, window, life)) + Count(s.admitted, WithinLife(from, window, life + 1))
  {
    var life := s.admitted[i].life;
    var p, here, there := Within(from, window), WithinLife(from, window, life), WithinLife(from, window, life + 1);
    forall j: nat | j < |s.admitted| && p(s.admitted[j]) ensures here(s.admitted[j]) || there(s.admitted[j]) {
      InTwoLives(s, limit, window, i, j, from);
    }
    SplitByIndex(s.admitted, p, here, there);
  }

  lemma LifePart(s: State, limit: nat, window: int, life: nat, from: int)
    requires Inv(s, limit, window)
    ensures Count(s.admitted, WithinLife(from, window, life)) <= limit
  {
    CountFewer(s.admitted, WithinLife(from, window, life), InLife(life));
  }

  /** When there are any of the next one, the first lifetime was opened before the interval. */
  lemma OpenedBefore(s: State, limit: nat, window: int, i: nat, j: nat, from: int)
    requires limit > 0 && window > 0 && Inv(s, limit, window) && i < |s.admitted| && Within(from, window)(s.admitted[i])
    requires forall k | 0 <= k < i :: !Within(from, window)(s.admitted[k])
    requires j < |s.admitted| && WithinLife(from, window, s.admitted[i].life + 1)(s.admitted[j])
    ensures Count(s.admitted, WithinLife(from, window, s.admitted[i].life)) <= limit - 1
  {
    assert Within(from, window)(s.admitted[j]);
    NeighbouringLives(s, limit, window, i, j, from);
    OpeningOutside(s, limit, window, s.admitted[i].life, from);
  }

  lemma {:induction false} FoundOrNone(a: seq<Admission>, p: Admission -> bool) returns (j: nat)
    ensures j < |a| ==> p(a[j])
    ensures j >= |a| ==> Count(a, p) == 0
  {
    if j: nat :| j < |a| && p(a[j]) {
      return j;
    }
    forall x | x in a ensures !p(x) {
      var i :| 0 <= i < |a| && a[i] == x;
    }
    CountNone(a, p);
    j := |a|;
  }

  /** If the interval reaches into the next lifetime, it misses an admission of the first. */
  lemma NextLife(s: State, limit: nat, window: int, i: nat, from: int)
    requires limit > 0 && window > 0 && Inv(s, limit, window) && i < |s.admitted| && Within(from, window)(s.admitted[i])
    requires forall k | 0 <= k < i :: !Within(from, window)(s.admitted[k])
    ensures Count(s.admitted, WithinLife(from, window, s.admitted[i].life)) <= limit - 1
         || Count(s.admitted, WithinLife(from, window, s.admitted[i].life + 1)) == 0
  {
    var j := FoundOrNone(s.admitted, WithinLife(from, window, s.admitted[i].life + 1));
    if j < |s.admitted| {
      OpenedBefore(s, limit, window, i, j, from);
    }
  }

  /** Any half-open interval of one window's length holds fewer than twice `limit` admissions within the limit. */
  lemma AdmissionBound(s: State, limit: nat, window: int, from: int)
    requires limit > 0 && window > 0 && Inv(s, limit, window)
    ensures Count(s.admitted, Within(from, window)) <= 2 * limit - 1
  {
    var i := FirstWithin(s.admitted, from, window);
    if i == |s.admitted| {
      CountNone(s.admitted, Within(from, window));
    } else {
      TwoLives(s, limit, window, i, from);
      LifePart(s, limit, window, s.admitted[i].life, from);
      LifePart(s, limit, window, s.admitted[i].life + 1, from);
      NextLife(s, limit, window, i, from);
    }
  }

  /**
   Any half-open interval of one window's length lets fewer than twice `limit` requests through, beyond
   those whose own INCR failed, however long an EXPIRE is delayed and whether or not it succeeds.
   */
  lemma WindowBound(events: seq<Event>, start: int, limit: nat, window: int, from: int)
    requires limit > 0 && window > 0
    ensures var s := Run(events, start, limit, window);
            Times(s.passed, from, window) <= 2 * limit - 1 + Times(s.failed, from, window)
  {
    RunInvariant(events, start, limit, window);
    RunSplits(events, start, limit, window, from);
    AdmissionBound(Run(events, start, limit, window), limit, window, from);
  }

  // ---------------------------------------------------------------- the bound is met

  function Requests(n: nat): seq<Event> {
    seq(n, i => Request)
  }

  function Copies(a: Admission, n: nat): seq<Admission> {
    seq(n, i => a)
  }

  lemma OneMoreCopy(a: seq<Admission>, x: Admission, n: nat)
    ensures a + Copies(x, n + 1) == a + Copies(x, n) + [x]
  {
  }

  lemma {:induction false} CountCopies(a: seq<Admission>, x: Admission, n: nat, p: Admission -> bool)
    ensures Count(a + Copies(x, n), p) == Count(a, p) + if p(x) then n else 0
  {
    if n == 0 {
      assert a + Copies(x, 0) == a;
    } else {
      CountCopies(a, x, n - 1, p);
      CountAppend(a + Copies(x, n - 1), x, p);
      OneMoreCopy(a, x, n - 1);
    }
  }

  /** The state after requests at one instant to a living counter with room for all of them. */
  ghost predicate AfterBurst(s: State, n: nat, s': State) {
    s.key.Some? && s'.now == s.now && s'.starts == s.starts && s'.pending == s.pending
    && s'.key == Some(s.key.value.(count := s.key.value.count + n))
    && s'.admitted == s.admitted + Copies(Admission(s.now, LastLife(s)), n)
  }

  lemma BurstMore(s: State, n: nat, s': State, limit: nat, window: int)
    requires KeyLives(s) && s.key.value.count >= 1 && s.key.value.count + n < limit && AfterBurst(s, n, s')
    ensures AfterBurst(s, n + 1, Step(s', Request, limit, window))
  {
    LiveRequest(s', limit, window);
    var a := Admission(s.now, LastLife(s));
    OneMoreCopy(s.admitted, a, n);
  }

  lemma {:induction false} Burst(s: State, n: nat, limit: nat, window: int)
    requires KeyLives(s) && s.key.value.count >= 1 && s.key.value.count + n <= limit
    ensures AfterBurst(s, n, RunFrom(s, Requests(n), limit, window))
  {
    if n == 0 {
      assert s.admitted + Copies(Admission(s.now, LastLife(s)), 0) == s.admitted;
    } else {
      Burst(s, n - 1, limit, window);
      assert Requests(n)[..n - 1] == Requests(n - 1);
      BurstMore(s, n - 1, RunFrom(s, Requests(n - 1), limit, window), limit, window);
    }
  }

  /** One request opens the window, all others that fit come at its end, and a full window's worth at once after it. */
  function TightRun(limit: nat, window: int): seq<Event>
    requires limit > 0 && window > 1
  {
    [Request, Expire, Tick(window - 1)] + Requests(limit - 1) + [Tick(1), Request] + Requests(limit - 1)
  }

  lemma TightOpening(limit: nat, window: int)
    requires limit > 0 && window > 1
    ensures var s := Run([Request, Expire, Tick(window - 1)], 0, limit, window);
            s.now == window - 1 && s.key == Some(Counter(1, Some(window))) && s.starts == [0] && s.admitted == [Admission(0, 0)]
  {
    var none: seq<Event> := [];
    RunStep(Unused(0), none, Request, limit, window);
    RunStep(Unused(0), none + [Request], Expire, limit, window);
    RunStep(Unused(0), none + [Request] + [Expire], Tick(window - 1), limit, window);
    assert none + [Request] + [Expire] + [Tick(window - 1)] == [Request, Expire, Tick(window - 1)];
  }

  lemma TightReopening(s: State, limit: nat, window: int)
    requires limit > 0 && s.key.Some? && s.key.value.expires == Some(s.now + 1)
    ensures var s' := RunFrom(s, [Tick(1), Request], limit, window);
            s'.now == s.now + 1 && s'.key == Some(Counter(1, None)) && s'.starts == s.starts + [s.now + 1]
            && s'.admitted == s.admitted + [Admission(s.now + 1, |s.starts|)]
  {
    var none: seq<Event> := [];
    RunStep(s, none, Tick(1), limit, window);
    RunStep(s, none + [Tick(1)], Request, limit, window);
    assert none + [Tick(1)] + [Request] == [Tick(1), Request];
  }

  /** The three later parts of that run. */
  function TightEnd(s0: State, limit: nat, window: int): State
    requires limit > 0
  {
    var s1 := RunFrom(s0, Requests(limit - 1), limit, window);
    RunFrom(RunFrom(s1, [Tick(1), Request], limit, window), Requests(limit - 1), limit, window)
  }

  lemma TightRest(s0: State, limit: nat, window: int)
    requires limit > 0 && window > 1 && s0.now == window - 1 && s0.key == Some(Counter(1, Some(window)))
    requires s0.starts == [0] && s0.admitted == [Admission(0, 0)]
    ensures TightEnd(s0, limit, window).admitted == [Admission(0, 0)] + Copies(Admission(window - 1, 0), limit - 1)
                                                    + [Admission(window, 1)] + Copies(Admission(window, 1), limit - 1)
  {
    var n := limit - 1;
    Burst(s0, n, limit, window);
    var s1 := RunFrom(s0, Requests(n), limit, window);
    TightReopening(s1, limit, window);
    Burst(RunFrom(s1, [Tick(1), Request], limit, window), n, limit, window);
  }

  lemma TightParts(limit: nat, window: int)
    requires limit > 0 && window > 1
    ensures Run(TightRun(limit, window), 0, limit, window)
         == TightEnd(Run([Request, Expire, Tick(window - 1)], 0, limit, window), limit, window)
  {
    var n := limit - 1;
    var opening: seq<Event> := [Request, Expire, Tick(window - 1)];
    RunConcat(Unused(0), opening, Requests(n), limit, window);
    RunConcat(Unused(0), opening + Requests(n), [Tick(1), Request], limit, window);
    RunConcat(Unused(0), opening + Requests(n) + [Tick(1), Request], Requests(n), limit, window);
  }

  lemma {:induction false} NothingFails(s: State, events: seq<Event>, limit: nat, window: int)
    requires forall i | 0 <= i < |events| :: !events[i].IncrError? && !events[i].IncrLost?
    ensures RunFrom(s, events, limit, window).failed == s.failed
  {
    if events != [] {
      NothingFails(s, events[..|events| - 1], limit, window);
      IncrementedLog(RunFrom(s, events[..|events| - 1], limit, window), limit);
    }
  }

  lemma TightNeverFails(limit: nat, window: int)
    requires limit > 0 && window > 1
    ensures Run(TightRun(limit, window), 0, limit, window).failed == []
  {
    var events := TightRun(limit, window);
    forall i | 0 <= i < |events| ensures !events[i].IncrError? && !events[i].IncrLost? {}
    NothingFails(Unused(0), events, limit, window);
  }

  /** The bound is met, without any failure, for every limit and every window that has more than one instant. */
  lemma WindowBoundIsTight(limit: nat, window: int)
    requires limit > 0 && window > 1
    ensures var s := Run(TightRun(limit, window), 0, limit, window);
            s.failed == [] && Times(s.passed, window - 1, window) == 2 * limit - 1
  {
    TightOpening(limit, window);
    TightRest(Run([Request, Expire, Tick(window - 1)], 0, limit, window), limit, window);
    TightParts(limit, window);
    TightCount(limit - 1, Admission(window - 1, 0), Admission(window, 1), Within(window - 1, window));
    TightNeverFails(limit, window);
    RunSplits(TightRun(limit, window), 0, limit, window, window - 1);
  }

  lemma TightCount(n: nat, first: Admission, last: Admission, p: Admission -> bool)
    requires !p(Admission(0, 0)) && p(first) && p(last)
    ensures Count([Admission(0, 0)] + Copies(first, n) + [last] + Copies(last, n), p) == 2 * n + 1
  {
    var zero := [Admission(0, 0)];
    CountAppend([], Admission(0, 0), p);
    assert [] + zero == zero;
    CountCopies(zero, first, n, p);
    CountAppend(zero + Copies(first, n), last, p);
    CountCopies(zero + Copies(first, n) + [last], last, n, p);
  }

  // ---------------------------------------------------------------- a counter that never expires

  /** A living counter without expiry, for which no EXPIRE is due. */
  predicate Stuck(s: State) {
    s.key.Some? && s.key.value.expires.None? && !s.pending && s.key.value.count >= 1
  }

  lemma StuckStep(s: State, e: Event, limit: nat, window: int)
    requires Stuck(s)
    ensures var s' := Step(s, e, limit, window);
            Stuck(s') && s'.starts == s.starts && s.key.value.count <= s'.key.value.count
            && |s'.admitted| - |s.admitted| <= Capped(s'.key.value.count, limit) - Capped(s.key.value.count, limit)
  {
  }

  /**
   When the INCR that opens a lifetime is applied but its reply is lost, or its EXPIRE fails, the counter
   never expires: whatever follows, no more than the rest of one limit is ever let through by it again.
   */
  lemma {:induction false} StuckForGood(s: State, events: seq<Event>, limit: nat, window: int)
    requires Stuck(s)
    ensures var s' := RunFrom(s, events, limit, window);
            Stuck(s') && s'.starts == s.starts && s.key.value.count <= s'.key.value.count
            && |s'.admitted| - |s.admitted| <= Capped(s'.key.value.count, limit) - Capped(s.key.value.count, limit)
  {
    if events != [] {
      StuckForGood(s, events[..|events| - 1], limit, window);
      StuckStep(RunFrom(s, events[..|events| - 1], limit, window), events[|events| - 1], limit, window);
    }
  }

  /**
   A lost reply that opens a lifetime, and a failed EXPIRE, both get the counter stuck: no lifetime begins
   any more, and over all that follows at most one limit is admitted.
   */
  lemma GetsStuck(s: State, e: Event, events: seq<Event>, limit: nat, window: int)
    requires limit > 0 && window > 0 && Inv(s, limit, window)
    requires (e == IncrLost && !KeyLives(s)) || (e == ExpireError && s.pending)
    ensures var stuck := Step(s, e, limit, window);
            var after := RunFrom(stuck, events, limit, window);
            KeyLives(after) && after.starts == stuck.starts && |after.admitted| <= |s.admitted| + limit
  {
    var stuck := Step(s, e, limit, window);
    assert Stuck(stuck);
    StuckForGood(stuck, events, limit, window);
  }
}
