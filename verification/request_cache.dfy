/**
 The front end's request cache: finished values with a time to live and requests in flight, under any
 interleaving of calls, settlements, clears and clock readings.
 */
module RequestCache {
  import opened Text

  /** Cache keys carry the caller's token already; they are only compared for equality. */
  type Key = nat

  type Value = nat

  /** A request runs, then its result or error is recorded, then it takes its key out of the in-flight map. */
  datatype Phase = Waiting | Settled | Done

  datatype Request = Request(key: Key, started: int, ttl: int, epoch: nat, phase: Phase, result: Option<Value>)

  /** A stored value; `source` remembers which request it came from. */
  datatype Entry = Entry(value: Value, expiresAt: int, source: nat)

  /** A value served from the cache, when, and from which request it came. */
  datatype Served = Served(key: Key, value: Value, at: int, source: nat)

  /** `epoch` counts the clears so far. */
  datatype Store = Store(now: int, epoch: nat, values: map<Key, Entry>, inflight: map<Key, nat>,
                         requests: seq<Request>, served: seq<Served>)

  datatype Event =
    | Call(key: Key, ttl: int)
    | Resolve(r: nat, value: Value)
    | Reject(r: nat)
    | Finalize(r: nat)
    | Clear
    | Clock(reading: int)

  predicate CacheHit(s: Store, k: Key) {
    k in s.values && s.values[k].expiresAt > s.now
  }

  /** One event; events that cannot happen where they stand change nothing. */
  function Step(s: Store, e: Event): Store {
    match e
    case Clock(reading) => s.(now := reading)
    case Clear => s.(epoch := s.epoch + 1, values := map[], inflight := map[])
    case Call(k, ttl) =>
      if CacheHit(s, k) then s.(served := s.served + [Served(k, s.values[k].value, s.now, s.values[k].source)])
      else if k in s.inflight then s
      else s.(inflight := s.inflight[k := |s.requests|],
              requests := s.requests + [Request(k, s.now, ttl, s.epoch, Waiting, None)])
    case Resolve(r, v) =>
      if r >= |s.requests| || s.requests[r].phase != Waiting then s
      else var q := s.requests[r];
           s.(values := s.values[q.key := Entry(v, q.started + q.ttl, r)],
              requests := s.requests[r := q.(phase := Settled, result := Some(v))])
    case Reject(r) =>
      if r >= |s.requests| || s.requests[r].phase != Waiting then s
      else var q := s.requests[r];
           s.(values := s.values - {q.key}, requests := s.requests[r := q.(phase := Settled)])
    case Finalize(r) =>
      if r >= |s.requests| || s.requests[r].phase != Settled then s
      else var q := s.requests[r];
           s.(inflight := s.inflight - {q.key}, requests := s.requests[r := q.(phase := Done)])
  }

  function Run(s: Store, events: seq<Event>): Store
    decreases |events|
  {
    if events == [] then s else Run(Step(s, events[0]), events[1..])
  }

  const EMPTY := Store(0, 0, map[], map[], [], [])

  // ---------------------------------------------------------------- served values are fresh

  /** The request it came from resolved with this value for this key, and its time to live ends at this instant. */
  predicate Produced(s: Store, k: Key, e: Entry) {
    e.source < |s.requests|
    && var q := s.requests[e.source]; q.key == k && q.result == Some(e.value) && q.started + q.ttl == e.expiresAt
  }

  /** The request it came from was for the key, resolved with the value, and started less than its time to live before. */
  predicate FromFreshRequest(s: Store, x: Served) {
    x.source < |s.requests|
    && var q := s.requests[x.source]; q.key == x.key && q.result == Some(x.value) && x.at < q.started + q.ttl
  }

  ghost predicate Fresh(s: Store) {
    (forall k | k in s.values :: Produced(s, k, s.values[k]))
    && (forall j | 0 <= j < |s.served| :: FromFreshRequest(s, s.served[j]))
    && (forall i | 0 <= i < |s.requests| :: s.requests[i].phase == Waiting ==> s.requests[i].result.None?)
  }

  /** A request once made keeps its key, start and time to live; a result once recorded stays. */
  predicate Extends(s: Store, s': Store) {
    |s.requests| <= |s'.requests|
    && forall i | 0 <= i < |s.requests| ::
         var q, q' := s.requests[i], s'.requests[i];
         q'.key == q.key && q'.started == q.started && q'.ttl == q.ttl && (q.result.Some? ==> q'.result == q.result)
  }

  lemma StepExtends(s: Store, e: Event)
    requires forall i | 0 <= i < |s.requests| :: s.requests[i].phase == Waiting ==> s.requests[i].result.None?
    ensures Extends(s, Step(s, e))
  {
  }

  lemma StepKeepsWaiting(s: Store, e: Event)
    requires forall i | 0 <= i < |s.requests| :: s.requests[i].phase == Waiting ==> s.requests[i].result.None?
    ensures var s' := Step(s, e);
            forall i | 0 <= i < |s'.requests| :: s'.requests[i].phase == Waiting ==> s'.requests[i].result.None?
  {
  }

  lemma ProducedStep(s: Store, e: Event, k: Key)
    requires Fresh(s) && k in Step(s, e).values
    ensures Produced(Step(s, e), k, Step(s, e).values[k])
  {
    StepExtends(s, e);
    if k in s.values && s.values[k] == Step(s, e).values[k] { assert Produced(s, k, s.values[k]); }
  }

  lemma ServedStep(s: Store, e: Event, j: nat)
    requires Fresh(s) && j < |Step(s, e).served|
    ensures FromFreshRequest(Step(s, e), Step(s, e).served[j])
  {
    StepExtends(s, e);
    if j == |s.served| { assert Produced(s, e.key, s.values[e.key]); } else { assert FromFreshRequest(s, s.served[j]); }
  }

  lemma FreshStep(s: Store, e: Event)
    requires Fresh(s)
    ensures Fresh(Step(s, e))
  {
    var s' := Step(s, e);
    StepKeepsWaiting(s, e);
    forall k | k in s'.values ensures Produced(s', k, s'.values[k]) { ProducedStep(s, e, k); }
    forall j: nat | j < |s'.served| ensures FromFreshRequest(s', s'.served[j]) { ServedStep(s, e, j); }
  }

  lemma {:induction false} FreshRun(s: Store, events: seq<Event>)
    requires Fresh(s)
    ensures Fresh(Run(s, events))
    decreases |events|
  {
    if events != [] {
      FreshStep(s, events[0]);
      FreshRun(Step(s, events[0]), events[1..]);
    }
  }

  /** Every value ever served from the cache came from a request for its key started less than a time to live before. */
  lemma ServedFresh(events: seq<Event>, j: nat)
    requires j < |Run(EMPTY, events).served|
    ensures FromFreshRequest(Run(EMPTY, events), Run(EMPTY, events).served[j])
  {
    FreshRun(EMPTY, events);
  }

  // ---------------------------------------------------------------- one request at a time

  predicate Unfinished(s: Store, i: nat) {
    i < |s.requests| && s.requests[i].phase != Done
  }

  /** Two requests for the key, both started since the last clear, are in flight. */
  ghost predicate Doubled(s: Store, k: Key) {
    exists i, j | 0 <= i < j < |s.requests| :: Unfinished(s, i) && Unfinished(s, j)
      && s.requests[i].key == k == s.requests[j].key && s.requests[i].epoch == s.epoch == s.requests[j].epoch
  }

  /** A request for the key, started before the last clear, is still in flight. */
  ghost predicate Orphaned(s: Store, k: Key) {
    exists i | 0 <= i < |s.requests| :: Unfinished(s, i) && s.requests[i].key == k && s.requests[i].epoch < s.epoch
  }

  /** Without such an orphan, the request of this epoch that is in flight is the one registered for the key. */
  ghost predicate Single(s: Store, k: Key) {
    !Orphaned(s, k)
    && (forall i: nat | Unfinished(s, i) && s.requests[i].key == k :: k in s.inflight && s.inflight[k] == i)
    && (forall i | 0 <= i < |s.requests| :: s.requests[i].epoch <= s.epoch)
  }

  lemma SingleStep(s: Store, e: Event, k: Key)
    requires Single(s, k) && e != Clear
    ensures Single(Step(s, e), k) && !Doubled(Step(s, e), k)
  {
    var s' := Step(s, e);
    forall i: nat | Unfinished(s', i) && s'.requests[i].key == k
      ensures k in s'.inflight && s'.inflight[k] == i && s'.requests[i].epoch == s'.epoch
    {
      if i < |s.requests| {
        assert Unfinished(s, i) && s.requests[i].key == k && s.requests[i].epoch == s.epoch;
      }
    }
  }

  predicate NoClear(events: seq<Event>) {
    forall i | 0 <= i < |events| :: events[i] != Clear
  }

  lemma {:induction false} SingleRun(s: Store, events: seq<Event>, k: Key)
    requires Single(s, k) && NoClear(events)
    ensures Single(Run(s, events), k) && !Doubled(Run(s, events), k)
    decreases |events|
  {
    if events != [] {
      SingleStep(s, events[0], k);
      SingleRun(Step(s, events[0]), events[1..], k);
    }
  }

  ghost predicate Epochs(s: Store) {
    forall i | 0 <= i < |s.requests| :: s.requests[i].epoch <= s.epoch
  }

  lemma EpochsStep(s: Store, e: Event)
    requires Epochs(s)
    ensures Epochs(Step(s, e))
  {
  }

  lemma {:induction false} EpochsRun(s: Store, events: seq<Event>)
    requires Epochs(s)
    ensures Epochs(Run(s, events))
    decreases |events|
  {
    if events != [] {
      EpochsStep(s, events[0]);
      EpochsRun(Step(s, events[0]), events[1..]);
    }
  }

  /** The events by which an orphan lets two new requests for its key run side by side. */
  ghost function Overtake(s: Store, i: nat, k: Key): seq<Event>
    requires i < |s.requests|
  {
    [Call(k, 0)] + (if s.requests[i].phase == Waiting then [Reject(i)] else []) + [Finalize(i), Call(k, 0)]
  }

  lemma OvertakeDoubles(s: Store, i: nat, k: Key)
    requires Epochs(s) && Unfinished(s, i) && s.requests[i].key == k && s.requests[i].epoch < s.epoch
    requires s.values == map[] && s.inflight == map[]
    ensures NoClear(Overtake(s, i, k)) && Doubled(Run(s, Overtake(s, i, k)), k)
  {
    var n := |s.requests|;
    var s1 := Step(s, Call(k, 0));
    assert s1.requests[n] == Request(k, s.now, 0, s.epoch, Waiting, None);
    if s.requests[i].phase == Waiting {
      var s2 := Step(s1, Reject(i));
      var s3 := Step(s2, Finalize(i));
      var s4 := Step(s3, Call(k, 0));
      RunFour(s, Call(k, 0), Reject(i), Finalize(i), Call(k, 0));
      assert Overtake(s, i, k) == [Call(k, 0), Reject(i), Finalize(i), Call(k, 0)];
      assert Unfinished(s4, n) && Unfinished(s4, n + 1);
    } else {
      var s3 := Step(s1, Finalize(i));
      var s4 := Step(s3, Call(k, 0));
      RunThree(s, Call(k, 0), Finalize(i), Call(k, 0));
      assert Overtake(s, i, k) == [Call(k, 0), Finalize(i), Call(k, 0)];
      assert Unfinished(s4, n) && Unfinished(s4, n + 1);
    }
  }

  lemma RunThree(s: Store, a: Event, b: Event, c: Event)
    ensures Run(s, [a, b, c]) == Step(Step(Step(s, a), b), c)
  {
    assert [a, b, c][1..] == [b, c] && [b, c][1..] == [c] && [c][1..] == [];
    assert Run(s, [a, b, c]) == Run(Step(s, a), [b, c]);
    assert Run(Step(s, a), [b, c]) == Run(Step(Step(s, a), b), [c]);
  }

  lemma RunFour(s: Store, a: Event, b: Event, c: Event, d: Event)
    ensures Run(s, [a, b, c, d]) == Step(Step(Step(Step(s, a), b), c), d)
  {
    assert [a, b, c, d][1..] == [b, c, d];
    RunThree(Step(s, a), b, c, d);
  }

  /**
   After a clear, at most one new request per key is ever in flight until the next clear, exactly
   when no request for the key was in flight at the clear: an old one, when it finishes, takes the
   new one's entry out of the in-flight map.
   */
  lemma OneInFlightIffQuietClear(history: seq<Event>, k: Key)
    ensures var s := Run(EMPTY, history);
            var cleared := Step(s, Clear);
            (forall events | NoClear(events) :: !Doubled(Run(cleared, events), k))
            <==> !exists i | 0 <= i < |s.requests| :: Unfinished(s, i) && s.requests[i].key == k
  {
    var s := Run(EMPTY, history);
    var cleared := Step(s, Clear);
    EpochsRun(EMPTY, history);
    if i :| 0 <= i < |s.requests| && Unfinished(s, i) && s.requests[i].key == k {
      OvertakeDoubles(cleared, i, k);
    } else {
      forall events | NoClear(events) ensures !Doubled(Run(cleared, events), k) { SingleRun(cleared, events, k); }
    }
  }

  /** Before the first clear at most one request per key is in flight. */
  lemma OneInFlightBeforeClear(events: seq<Event>, k: Key)
    requires NoClear(events)
    ensures !Doubled(Run(EMPTY, events), k)
  {
    SingleRun(EMPTY, events, k);
  }

  // ---------------------------------------------------------------- values from before a clear

  /** Since there were n of them, a value for the key was served that comes from a request of an earlier epoch. */
  ghost predicate ServesOld(s: Store, n: nat, k: Key, epoch: nat) {
    exists j | n <= j < |s.served| :: OldSource(s, s.served[j], k, epoch)
  }

  predicate OldSource(s: Store, x: Served, k: Key, epoch: nat) {
    x.key == k && x.source < |s.requests| && s.requests[x.source].epoch < epoch
  }

  predicate Awaits(s: Store, i: nat, k: Key) {
    i < |s.requests| && s.requests[i].phase == Waiting && s.requests[i].key == k
  }

  /** A request for the key, from before this epoch, that waits and still has time to live left. */
  predicate MayReturn(s: Store, i: nat, k: Key, epoch: nat) {
    Awaits(s, i, k) && s.requests[i].epoch < epoch && s.now < s.requests[i].started + s.requests[i].ttl
  }

  /** Nothing old may return for the key, none is a hit, and none was served since. */
  ghost predicate NothingOld(s: Store, n: nat, k: Key, epoch: nat) {
    s.epoch == epoch
    && (forall i: nat :: !MayReturn(s, i, k, epoch))
    && (CacheHit(s, k) ==> s.values[k].source < |s.requests| && s.requests[s.values[k].source].epoch >= epoch)
    && !ServesOld(s, n, k, epoch)
  }

  /** The clock does not go back. */
  predicate Onward(s: Store, e: Event) {
    e.Clock? ==> s.now <= e.reading
  }

  predicate Forward(s: Store, events: seq<Event>)
    decreases |events|
  {
    events == [] || (Onward(s, events[0]) && Forward(Step(s, events[0]), events[1..]))
  }

  lemma ServedAppears(s: Store, e: Event, n: nat, k: Key, epoch: nat)
    requires Fresh(s) && NothingOld(s, n, k, epoch) && e != Clear
    ensures !ServesOld(Step(s, e), n, k, epoch)
  {
    var s' := Step(s, e);
    forall j | n <= j < |s'.served| ensures !OldSource(s', s'.served[j], k, epoch) {
      if j < |s.served| {
        assert !OldSource(s, s.served[j], k, epoch) && FromFreshRequest(s, s.served[j]);
      }
    }
  }

  lemma HitAppears(s: Store, e: Event, n: nat, k: Key, epoch: nat)
    requires NothingOld(s, n, k, epoch) && Onward(s, e)
    ensures var s' := Step(s, e); CacheHit(s', k) ==> s'.values[k].source < |s'.requests| && s'.requests[s'.values[k].source].epoch >= epoch
  {
    if e.Resolve? && e.r < |s.requests| && s.requests[e.r].phase == Waiting { assert !MayReturn(s, e.r, k, epoch); }
  }

  lemma NothingOldStep(s: Store, e: Event, n: nat, k: Key, epoch: nat)
    requires Fresh(s) && NothingOld(s, n, k, epoch) && e != Clear && Onward(s, e)
    ensures NothingOld(Step(s, e), n, k, epoch)
  {
    var s' := Step(s, e);
    ServedAppears(s, e, n, k, epoch);
    HitAppears(s, e, n, k, epoch);
    forall i: nat ensures !MayReturn(s', i, k, epoch) {
      if i < |s.requests| { assert !MayReturn(s, i, k, epoch); }
    }
  }

  lemma {:induction false} NothingOldRun(s: Store, events: seq<Event>, n: nat, k: Key, epoch: nat)
    requires Fresh(s) && NothingOld(s, n, k, epoch) && NoClear(events) && Forward(s, events)
    ensures NothingOld(Run(s, events), n, k, epoch)
    decreases |events|
  {
    if events != [] {
      FreshStep(s, events[0]);
      NothingOldStep(s, events[0], n, k, epoch);
      NothingOldRun(Step(s, events[0]), events[1..], n, k, epoch);
    }
  }

  lemma TwoForward(s: Store, a: Event, b: Event)
    requires !a.Clock? && !b.Clock?
    ensures Forward(s, [a, b]) && Run(s, [a, b]) == Step(Step(s, a), b)
  {
    assert [a, b][1..] == [b] && [b][1..] == [];
    assert Run(Step(s, a), [b]) == Step(Step(s, a), b);
    assert Forward(Step(s, a), [b]);
  }

  /** It resolves, and the next call for its key is served. */
  lemma ReturnServes(s: Store, i: nat, k: Key)
    requires MayReturn(s, i, k, s.epoch)
    ensures ServesOld(Run(s, [Resolve(i, 0), Call(k, 0)]), |s.served|, k, s.epoch)
  {
    TwoForward(s, Resolve(i, 0), Call(k, 0));
    var s2 := Step(Step(s, Resolve(i, 0)), Call(k, 0));
    assert s2.served == s.served + [Served(k, 0, s.now, i)];
    assert OldSource(s2, s2.served[|s.served|], k, s.epoch);
  }

  /** After a clear, until the next, a value from before it is served again. */
  ghost predicate OldComesBack(cleared: Store, k: Key) {
    exists events | NoClear(events) && Forward(cleared, events) :: ServesOld(Run(cleared, events), |cleared.served|, k, cleared.epoch)
  }

  /** That can happen exactly when at the clear a request for the key was unsettled with time to live left. */
  lemma OldServedIffUnsettled(history: seq<Event>, k: Key)
    ensures var s := Run(EMPTY, history);
            OldComesBack(Step(s, Clear), k) <==> exists i: nat | Awaits(s, i, k) :: s.now < s.requests[i].started + s.requests[i].ttl
  {
    var s := Run(EMPTY, history);
    var cleared := Step(s, Clear);
    EpochsRun(EMPTY, history);
    if i: nat :| Awaits(s, i, k) && s.now < s.requests[i].started + s.requests[i].ttl {
      assert MayReturn(cleared, i, k, cleared.epoch);
      ReturnServes(cleared, i, k);
      TwoForward(cleared, Resolve(i, 0), Call(k, 0));
      assert NoClear([Resolve(i, 0), Call(k, 0)]);
    } else {
      FreshRun(EMPTY, history);
      FreshStep(s, Clear);
      NothingOldAtClear(s, k);
      forall events | NoClear(events) && Forward(cleared, events) ensures !ServesOld(Run(cleared, events), |cleared.served|, k, cleared.epoch) {
        NothingOldRun(cleared, events, |cleared.served|, k, cleared.epoch);
      }
    }
  }

  lemma NothingOldAtClear(s: Store, k: Key)
    requires forall i: nat | Awaits(s, i, k) :: s.now >= s.requests[i].started + s.requests[i].ttl
    ensures var cleared := Step(s, Clear); NothingOld(cleared, |cleared.served|, k, cleared.epoch)
  {
    var cleared := Step(s, Clear);
    forall i: nat ensures !MayReturn(cleared, i, k, cleared.epoch) { assert Awaits(cleared, i, k) ==> Awaits(s, i, k); }
  }
}
