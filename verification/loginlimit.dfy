/** The login limiter of one key, proved against the log of failures and resets it was told about. */
module LoginLimiter {
  import opened Text

  datatype Event = Failure(at: int) | Reset(at: int)

  /** Limit of failures, length of the window and of a block. */
  datatype Config = Config(limit: nat, window: int, blockDuration: int) {
    predicate Enabled() {
      limit > 0 && window > 0 && blockDuration > 0
    }
  }

  ghost predicate Chronological(log: seq<Event>) {
    forall i, j | 0 <= i < j < |log| :: log[i].at <= log[j].at
  }

  ghost predicate UpTo(log: seq<Event>, now: int) {
    forall i | 0 <= i < |log| :: log[i].at <= now
  }

  lemma LogGrows(log: seq<Event>, e: Event)
    requires Chronological(log) && UpTo(log, e.at)
    ensures Chronological(log + [e]) && UpTo(log + [e], e.at)
  {
  }

  // ---------------------------------------------------------------- what the log means

  /**
   Where the current window begins: the index of the failure that opened it, or the end of the log.
   A failure opens a window unless it falls into the current one; the failure that brings a window to
   the limit closes it, and so does a reset.
   */
  function WindowStart(log: seq<Event>, c: Config): (start: nat)
    ensures start <= |log|
  {
    if log == [] then 0
    else
      var n, last := |log| - 1, log[|log| - 1];
      var before := WindowStart(log[..n], c);
      var first := if before < n && last.at < log[before].at + c.window then before else n;
      if last.Reset? || |log| - first >= c.limit then |log| else first
  }

  /** Failures since the latest of window start, last block and last reset. */
  function Failures(log: seq<Event>, c: Config, now: int): nat {
    var start := WindowStart(log, c);
    if start < |log| && now < log[start].at + c.window then |log| - start else 0
  }

  /** The event at index i is the failure that brought its window to the limit. */
  predicate Completes(log: seq<Event>, c: Config, i: nat)
    requires i < |log|
  {
    log[i].Failure? && WindowStart(log[..i + 1], c) == i + 1
  }

  /** Blocked: a window was filled less than a block's duration ago and nothing was reset since. */
  ghost predicate Blocked(log: seq<Event>, c: Config, now: int) {
    exists i | 0 <= i < |log| :: BlocksFrom(log, c, now, i)
  }

  ghost predicate BlocksFrom(log: seq<Event>, c: Config, now: int, i: nat)
    requires i < |log|
  {
    Completes(log, c, i) && now < log[i].at + c.blockDuration && forall j | i < j < |log| :: log[j].Failure?
  }

  // ---------------------------------------------------------------- what the meaning is worth

  /** The open window holds failures only, none of them completing a window, all within its length, fewer than the limit. */
  lemma {:induction false} WindowHoldsFailures(log: seq<Event>, c: Config)
    requires c.Enabled() && Chronological(log)
    ensures var start := WindowStart(log, c);
            (start < |log| ==> |log| - start < c.limit)
            && (forall i | start <= i < |log| :: log[i].Failure? && log[i].at < log[start].at + c.window)
  {
    if log != [] {
      WindowHoldsFailures(log[..|log| - 1], c);
    }
  }

  /** A completed window is exactly `limit` failures, the last within a window of the first. */
  lemma CompletedWindow(log: seq<Event>, c: Config, i: nat)
    requires c.Enabled() && Chronological(log) && i < |log| && Completes(log, c, i)
    ensures c.limit <= i + 1
    ensures forall j | i + 1 - c.limit <= j <= i :: log[j].Failure?
    ensures log[i].at < log[i + 1 - c.limit].at + c.window
    ensures c.limit > 1 ==> WindowStart(log[..i], c) == i + 1 - c.limit
  {
    var prefix := log[..i];
    assert log[..i + 1][..i] == prefix;
    WindowHoldsFailures(prefix, c);
    var before := WindowStart(prefix, c);
    assert forall j | 0 <= j < i :: prefix[j] == log[j];
  }

  /** A block always comes from `limit` failures in a row, close together and recent enough. */
  lemma BlockedMeans(log: seq<Event>, c: Config, now: int)
    requires c.Enabled() && Chronological(log) && Blocked(log, c, now)
    ensures exists i | 0 <= i < |log| && c.limit <= i + 1 ::
              (forall j | i + 1 - c.limit <= j < |log| :: log[j].Failure?)
              && log[i].at < log[i + 1 - c.limit].at + c.window && now < log[i].at + c.blockDuration
  {
    var i :| 0 <= i < |log| && BlocksFrom(log, c, now, i);
    CompletedWindow(log, c, i);
  }

  /** Failures that open a window and follow each other within it block the key at the limit-th. */
  lemma {:induction false} FillingBlocks(log: seq<Event>, c: Config, more: seq<Event>)
    requires c.Enabled() && WindowStart(log, c) == |log| && 0 < |more| <= c.limit
    requires forall i | 0 <= i < |more| :: more[i].Failure? && more[i].at < more[0].at + c.window
    ensures WindowStart(log + more, c) == if |more| == c.limit then |log + more| else |log|
    ensures |more| == c.limit ==> Completes(log + more, c, |log + more| - 1)
  {
    var init := more[..|more| - 1];
    assert (log + more)[..|log + more| - 1] == log + init;
    if init != [] {
      FillingBlocks(log, c, init);
    } else {
      assert log + init == log;
    }
    assert (log + more)[..|log + more|] == log + more;
  }

  /** Then the key stays blocked for the whole duration, whatever else fails meanwhile. */
  lemma FilledBlocks(log: seq<Event>, c: Config, more: seq<Event>, later: seq<Event>, now: int)
    requires c.Enabled() && WindowStart(log, c) == |log| && |more| == c.limit
    requires forall i | 0 <= i < |more| :: more[i].Failure? && more[i].at < more[0].at + c.window
    requires forall i | 0 <= i < |later| :: later[i].Failure?
    ensures now < more[c.limit - 1].at + c.blockDuration ==> Blocked(log + more + later, c, now)
  {
    FillingBlocks(log, c, more);
    var all, i := log + more + later, |log + more| - 1;
    assert all[..i + 1] == log + more && (log + more)[..i + 1] == log + more;
    assert all[i] == more[c.limit - 1];
    if now < more[c.limit - 1].at + c.blockDuration { assert BlocksFrom(all, c, now, i); }
  }

  // ---------------------------------------------------------------- the limiter

  /** Keys with a time to live: the failure counter and the block. */
  datatype Key = Key(value: int, expires: int)

  class Limiter {
    const config: Config
    var now: int
    var attempts: Option<Key>
    var block: Option<int>
    ghost var log: seq<Event>

    /** The stored keys mean what the log says, at every instant from now on. */
    ghost predicate Valid()
      reads this
    {
      Means(attempts, block, log, config, now)
    }

    constructor (config: Config, start: int)
      requires config.Enabled()
      ensures Valid() && log == [] && now == start && this.config == config
    {
      this.config, now, attempts, block, log := config, start, None, None, [];
    }

    method Tick(d: nat)
      requires Valid()
      modifies this`now
      ensures Valid() && now == old(now) + d
    {
      now := now + d;
    }

    method IsBlocked() returns (blocked: bool, ttl: int)
      requires Valid()
      ensures blocked == Blocked(log, config, now)
      ensures blocked ==> ttl > 0 && forall t | t >= now :: Blocked(log, config, t) <==> t < now + ttl
    {
      if block.None? || block.value - now <= 0 {
        return false, 0;
      }
      return true, block.value - now;
    }

    /** The three writes of a failure: the counter, its expiry when it is new, and the block when it is full. */
    method CountFailure() returns (blocked: bool)
      modifies this`attempts, this`block
      ensures (attempts, block, blocked) == AfterFailure(old(attempts), old(block), config, now)
    {
      var count := if attempts.Some? && now < attempts.value.expires then attempts.value.value + 1 else 1;
      attempts := Some(Key(count, if count == 1 || attempts.None? then now + config.window else attempts.value.expires));
      blocked := count >= config.limit;
      if blocked {
        block := Some(now + config.blockDuration);
        attempts := None;
      }
    }

    method RegisterFailure() returns (blocked: bool)
      requires Valid()
      modifies this
      ensures Valid() && now == old(now) && log == old(log) + [Failure(now)]
      ensures blocked == Completes(log, config, |log| - 1)
      ensures blocked ==> Blocked(log, config, now)
      ensures Failures(log, config, now) == if blocked then 0 else old(Failures(log, config, now)) + 1
    {
      FailureStep(attempts, block, log, config, now);
      blocked := CountFailure();
      log := log + [Failure(now)];
    }

    method Reset()
      requires Valid()
      modifies this
      ensures Valid() && now == old(now) && log == old(log) + [Event.Reset(now)]
      ensures Failures(log, config, now) == 0 && !Blocked(log, config, now)
    {
      attempts, block := None, None;
      LogGrows(log, Event.Reset(now));
      WindowAfter(log, config, Event.Reset(now));
      forall t ensures !Blocked(log + [Event.Reset(now)], config, t) { NotBlockedAfterReset(log, config, now, t); }
      log := log + [Event.Reset(now)];
    }

    /** The counter the store holds: below the limit, and equal to the failures the log counts. */
    method Attempts() returns (count: nat)
      requires Valid()
      ensures count == Failures(log, config, now) < config.limit
    {
      WindowHoldsFailures(log, config);
      count := if attempts.Some? && now < attempts.value.expires then attempts.value.value else 0;
    }
  }

  ghost predicate Means(attempts: Option<Key>, block: Option<int>, log: seq<Event>, c: Config, now: int) {
    c.Enabled() && Chronological(log) && UpTo(log, now)
    && CounterMatches(attempts, log, c, now) && BlockMatches(block, log, c, now)
  }

  ghost predicate CounterMatches(attempts: Option<Key>, log: seq<Event>, c: Config, now: int) {
    var start := WindowStart(log, c);
    if start < |log| && now < log[start].at + c.window
    then attempts == Some(Key(|log| - start, log[start].at + c.window))
    else attempts.None? || attempts.value.expires <= now
  }

  ghost predicate BlockMatches(block: Option<int>, log: seq<Event>, c: Config, now: int) {
    forall t | t >= now :: (block.Some? && t < block.value) <==> Blocked(log, c, t)
  }

  /** One more failure keeps a block standing, and starts one if it completes its window. */
  lemma BlockedAfterFailure(log: seq<Event>, c: Config, at: int, t: int)
    ensures var log' := log + [Failure(at)];
            Blocked(log', c, t) <==> Blocked(log, c, t) || (Completes(log', c, |log|) && t < at + c.blockDuration)
  {
    var log' := log + [Failure(at)];
    forall i: nat | i < |log| ensures BlocksFrom(log', c, t, i) <==> BlocksFrom(log, c, t, i) {
      assert log'[..i + 1] == log[..i + 1];
      if BlocksFrom(log', c, t, i) {
        forall j | i < j < |log| ensures log[j].Failure? { assert log'[j].Failure?; }
      }
    }
    assert BlocksFrom(log', c, t, |log|) <==> Completes(log', c, |log|) && t < at + c.blockDuration;
  }

  lemma NotBlockedAfterReset(log: seq<Event>, c: Config, at: int, t: int)
    ensures !Blocked(log + [Reset(at)], c, t)
  {
    var log' := log + [Reset(at)];
    forall i: nat | i < |log'| ensures !BlocksFrom(log', c, t, i) {
      assert log'[|log|].Reset?;
    }
  }

  lemma WindowAfter(log: seq<Event>, c: Config, e: Event)
    requires c.limit > 0
    ensures var start := WindowStart(log, c);
            var first := if start < |log| && e.at < log[start].at + c.window then start else |log|;
            WindowStart(log + [e], c) == if e.Reset? || |log| + 1 - first >= c.limit then |log| + 1 else first
    ensures e.Failure? ==> (Completes(log + [e], c, |log|) <==> WindowStart(log + [e], c) == |log| + 1)
  {
    assert (log + [e])[..|log|] == log && (log + [e])[..|log| + 1] == log + [e];
  }

  /** The counter after a failure: one more than before, and the limit is reached exactly when the log says so. */
  lemma CounterAfterFailure(attempts: Option<Key>, log: seq<Event>, c: Config, now: int)
    requires c.Enabled() && Chronological(log) && CounterMatches(attempts, log, c, now)
    ensures var log' := log + [Failure(now)];
            var count := if attempts.Some? && now < attempts.value.expires then attempts.value.value + 1 else 1;
            var key := Some(Key(count, if count == 1 then now + c.window else attempts.value.expires));
            && count == Failures(log, c, now) + 1
            && (count >= c.limit <==> Completes(log', c, |log|))
            && CounterMatches(if count >= c.limit then None else key, log', c, now)
            && Failures(log', c, now) == if count >= c.limit then 0 else count
  {
    WindowHoldsFailures(log, c);
    WindowAfter(log, c, Failure(now));
  }

  /** The block key after a failure: renewed to the latest end when the window is full, else left alone. */
  lemma BlockKeyAfterFailure(block: Option<int>, log: seq<Event>, c: Config, now: int)
    requires c.Enabled() && BlockMatches(block, log, c, now) && UpTo(log, now)
    ensures var log' := log + [Failure(now)];
            BlockMatches(if Completes(log', c, |log|) then Some(now + c.blockDuration) else block, log', c, now)
  {
    var log' := log + [Failure(now)];
    forall t | t >= now ensures Blocked(log', c, t) <==> Blocked(log, c, t) || (Completes(log', c, |log|) && t < now + c.blockDuration) {
      BlockedAfterFailure(log, c, now, t);
    }
    forall t | t >= now && Blocked(log, c, t) ensures t < now + c.blockDuration {
      var i :| 0 <= i < |log| && BlocksFrom(log, c, t, i);
    }
  }

  /** What a failure stores. */
  function AfterFailure(attempts: Option<Key>, block: Option<int>, c: Config, now: int): (Option<Key>, Option<int>, bool) {
    var count := if attempts.Some? && now < attempts.value.expires then attempts.value.value + 1 else 1;
    if count >= c.limit then (None, Some(now + c.blockDuration), true)
    else (Some(Key(count, if count == 1 || attempts.None? then now + c.window else attempts.value.expires)), block, false)
  }

  lemma FailureStep(attempts: Option<Key>, block: Option<int>, log: seq<Event>, c: Config, now: int)
    requires Means(attempts, block, log, c, now)
    ensures var log' := log + [Failure(now)];
            var (attempts', block', full) := AfterFailure(attempts, block, c, now);
            && Means(attempts', block', log', c, now)
            && (full <==> Completes(log', c, |log'| - 1)) && (full ==> Blocked(log', c, now))
            && Failures(log', c, now) == if full then 0 else Failures(log, c, now) + 1
  {
    LogGrows(log, Failure(now));
    BlockKeyAfterFailure(block, log, c, now);
    CounterAfterFailure(attempts, log, c, now);
  }
}
