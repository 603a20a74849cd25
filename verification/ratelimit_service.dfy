/** The rate-limiting middleware as it runs against the store. */
module RateLimitMiddleware {
  import opened Text
  import opened RateLimiter

  /** A request's outcome: passed on, or refused with status 429. */
  datatype Outcome = Next | TooManyRequests

  /** How the call of INCR turns out: answered, never applied, or applied with its reply lost. */
  datatype Reply = Answered | NotApplied | Lost

  class Middleware {
    const limit: int
    const window: int
    var now: int
    var key: Option<Counter>
    ghost var pending: bool
    ghost var starts: seq<int>
    ghost var admitted: seq<Admission>
    ghost var passed: seq<int>
    ghost var failed: seq<int>

    ghost function State(): RateLimiter.State
      reads this
    {
      RateLimiter.State(now, key, pending, starts, admitted, passed, failed)
    }

    ghost predicate Enabled() {
      limit > 0 && window > 0
    }

    /** A counter that is there has counted something, and lives while its EXPIRE is still to come. */
    ghost predicate Valid()
      reads this
    {
      (key.Some? ==> key.value.count >= 1) && (pending ==> key.Some? && key.value.expires.None?)
    }

    constructor (limit: int, window: int, start: int)
      ensures Valid() && this.limit == limit && this.window == window && State() == Unused(start)
    {
      this.limit, this.window, now, key := limit, window, start, None;
      pending, starts, admitted, passed, failed := false, [], [], [], [];
    }

    /** INCR: a missing or expired counter starts at one, without an expiry. */
    method Incr() returns (current: nat)
      requires Enabled() && Valid()
      modifies this
      ensures Valid() && State() == Incremented(old(State()), limit)
      ensures key.Some? && current == key.value.count && (current == 1 ==> pending)
      ensures current <= limit <==> admitted == old(admitted) + [Admission(now, LastLife(State()))]
      ensures current > limit <==> admitted == old(admitted)
    {
      if key.Some? && (key.value.expires.None? || now < key.value.expires.value) {
        current := key.value.count + 1;
        key := Some(key.value.(count := current));
      } else {
        current := 1;
        key := Some(Counter(1, None));
        pending, starts := true, starts + [now];
      }
      if current <= limit {
        admitted := admitted + [Admission(now, LastLife(State()))];
      }
    }

    /** EXPIRE: the counter it is for is still there, having no expiry yet. */
    method ExpireKey()
      requires Enabled() && Valid() && pending
      modifies this`key, this`pending
      ensures Valid() && State() == Step(old(State()), Expire, limit, window)
    {
      key := Some(key.value.(expires := Some(now + window)));
      pending := false;
    }

    method Tick(d: nat)
      requires Valid()
      modifies this`now
      ensures Valid() && State() == Step(old(State()), RateLimiter.Tick(d), 0, window)
    {
      now := now + d;
    }

    /** The call of EXPIRE after the first INCR of a lifetime, some time later. */
    method SetExpiry(delay: nat, fails: bool) returns (ghost events: seq<Event>)
      requires Enabled() && Valid() && pending
      modifies this
      ensures Valid() && State() == RunFrom(old(State()), events, limit, window)
      ensures passed == old(passed) && admitted == old(admitted)
      ensures events == [RateLimiter.Tick(delay), if fails then ExpireError else Expire]
    {
      ghost var before := State();
      Tick(delay);
      events := [RateLimiter.Tick(delay), if fails then ExpireError else Expire];
      RunTwo(before, RateLimiter.Tick(delay), if fails then ExpireError else Expire, limit, window);
      if fails {
        pending := false;
      } else {
        ExpireKey();
      }
    }

    /** The handler when INCR fails: the request goes on, whether or not it was counted. */
    method PassAnyway(lost: bool) returns (ghost e: Event)
      requires Enabled() && Valid()
      modifies this
      ensures Valid() && e == (if lost then IncrLost else IncrError) && State() == Step(old(State()), e, limit, window)
      ensures passed == old(passed) + [now]
    {
      e := if lost then IncrLost else IncrError;
      ghost var due, within := pending, admitted;
      if lost {
        var _ := Incr();
        pending := due;
      }
      if admitted == within {
        failed := failed + [now];
      }
      passed := passed + [now];
    }

    /** INCR, and the decision: over the limit or not. */
    method Count() returns (current: nat)
      requires Enabled() && Valid()
      modifies this
      ensures Valid() && State() == Step(old(State()), Request, limit, window)
      ensures current == 1 ==> pending
      ensures passed == (if current <= limit then old(passed) + [old(now)] else old(passed))
      ensures current <= limit <==> admitted != old(admitted)
    {
      current := Incr();
      if current <= limit {
        passed := passed + [now];
      }
    }

    /**
     The handler, undisturbed: switched off it lets everything through; else it plays one request and at
     most one EXPIRE, and lets through all but what is over the limit. The limiter's invariant is kept, so
     its bounds hold of whatever handlers do.
     */
    method Handle(reply: Reply, delay: nat, expireFails: bool) returns (outcome: Outcome, ghost events: seq<Event>)
      requires Valid()
      modifies this
      ensures Valid()
      ensures !Enabled() ==> outcome == Next && State() == old(State())
      ensures Enabled() ==> State() == RunFrom(old(State()), events, limit, window)
      ensures Enabled() ==> passed == if outcome == Next then old(passed) + [old(now)] else old(passed)
      ensures Enabled() && reply == Answered ==> (outcome == Next <==> admitted != old(admitted))
      ensures Enabled() && Inv(old(State()), limit, window) ==> Inv(State(), limit, window)
    {
      events := [];
      if limit <= 0 || window <= 0 { return Next, events; }
      ghost var before := State();
      if reply != Answered {
        ghost var e := PassAnyway(reply == Lost);
        RunOne(before, e, limit, window);
        RunKeepsInv(before, [e], limit, window);
        return Next, [e];
      }
      var current := Count();
      RunOne(before, Request, limit, window);
      events := [Request];
      if current == 1 {
        ghost var more := SetExpiry(delay, expireFails);
        RunConcat(before, [Request], more, limit, window);
        events := [Request] + more;
      }
      RunKeepsInv(before, events, limit, window);
      return if current > limit then TooManyRequests else Next, events;
    }
  }

  lemma {:induction false} RunKeepsInv(s: RateLimiter.State, events: seq<Event>, limit: nat, window: int)
    requires limit > 0 && window > 0
    ensures Inv(s, limit, window) ==> Inv(RunFrom(s, events, limit, window), limit, window)
  {
    if Inv(s, limit, window) && events != [] {
      RunKeepsInv(s, events[..|events| - 1], limit, window);
      StepKeepsInv(RunFrom(s, events[..|events| - 1], limit, window), events[|events| - 1], limit, window);
    }
  }

  lemma RunOne(s: RateLimiter.State, e: Event, limit: nat, window: int)
    ensures RunFrom(s, [e], limit, window) == Step(s, e, limit, window)
  {
    assert [e][..0] == [];
  }

  lemma RunTwo(s: RateLimiter.State, a: Event, b: Event, limit: nat, window: int)
    ensures RunFrom(s, [a, b], limit, window) == Step(Step(s, a, limit, window), b, limit, window)
  {
    assert [a, b][..1] == [a];
    RunOne(s, a, limit, window);
  }
}
