/** The request cache as the front end's code keeps it: two maps, and promises that settle later. */
module RequestCacheService {
  import opened Text
  import opened RequestCache

  /** What a caller gets: a value from the cache, a promise already in flight, or that of a new request. */
  datatype Reply = Cached(value: Value) | Joined(request: nat) | Started(request: nat)

  class Cache {
    var now: int
    var values: map<Key, Entry>
    var inflight: map<Key, nat>
    var requests: seq<Request>
    var epoch: nat
    ghost var served: seq<Served>

    ghost function State(): Store
      reads this
    {
      Store(now, epoch, values, inflight, requests, served)
    }

    /** Every stored value and every value ever served comes from a request for its key, recently enough started. */
    ghost predicate Valid()
      reads this
    {
      Fresh(State()) && Epochs(State())
    }

    lemma Steps(e: Event)
      requires Valid()
      ensures Fresh(Step(State(), e)) && Epochs(Step(State(), e))
    {
      FreshStep(State(), e);
      EpochsStep(State(), e);
    }

    constructor ()
      ensures State() == EMPTY && Valid()
    {
      now, values, inflight, requests := 0, map[], map[], [];
      epoch, served := 0, [];
    }

    /** Afterwards nothing is stored or joined, though requests run on. */
    method Clear()
      requires Valid()
      modifies this
      ensures Valid() && State() == Step(old(State()), Event.Clear)
      ensures forall k :: !CacheHit(State(), k) && k !in inflight
    {
      Steps(Event.Clear);
      inflight := map[];
      values := map[];
      epoch := epoch + 1;
    }

    method WithAuthScopedRequestCache(cacheKey: Key, ttl: int) returns (reply: Reply)
      requires Valid()
      modifies this
      ensures Valid() && State() == Step(old(State()), Call(cacheKey, ttl))
      ensures reply.Cached? <==> cacheKey in old(values) && now < old(values)[cacheKey].expiresAt
      ensures reply.Joined? <==> !reply.Cached? && cacheKey in old(inflight)
      ensures reply.Started? ==> inflight == old(inflight)[cacheKey := |old(requests)|] && |requests| == |old(requests)| + 1
                                 && requests[..|old(requests)|] == old(requests) && requests[|old(requests)|].ttl == ttl
      ensures now == old(now) && values == old(values) && (!reply.Started? ==> inflight == old(inflight) && requests == old(requests))
      ensures match reply
              case Cached(v) => |served| == |old(served)| + 1 && FromFreshRequest(State(), served[|old(served)|])
                                && served[|old(served)|].key == cacheKey && served[|old(served)|].value == v && served[|old(served)|].at == now
              case Joined(r) => cacheKey in old(inflight) && r == old(inflight)[cacheKey] && State() == old(State())
              case Started(r) => cacheKey !in old(inflight) && r == |old(requests)| && r < |requests| && requests[r].phase == Waiting
                                 && requests[r].key == cacheKey && requests[r].started == now
    {
      Steps(Call(cacheKey, ttl));
      if cacheKey in values && values[cacheKey].expiresAt > now {
        served := served + [Served(cacheKey, values[cacheKey].value, now, values[cacheKey].source)];
        return Cached(values[cacheKey].value);
      }
      if cacheKey in inflight {
        return Joined(inflight[cacheKey]);
      }
      var request := |requests|;
      requests := requests + [Request(cacheKey, now, ttl, epoch, Waiting, None)];
      inflight := inflight[cacheKey := request];
      return Started(request);
    }

    /** The factory's promise resolves: the value is a hit for its key until a time to live after its call. */
    method OnResolve(r: nat, response: Value)
      requires Valid() && r < |requests| && requests[r].phase == Waiting
      modifies this
      ensures Valid() && State() == Step(old(State()), Resolve(r, response))
      ensures CacheHit(State(), requests[r].key) <==> now < requests[r].started + requests[r].ttl
    {
      Steps(Resolve(r, response));
      var q := requests[r];
      values := values[q.key := Entry(response, q.started + q.ttl, r)];
      requests := requests[r := q.(phase := Settled, result := Some(response))];
    }

    /** It is rejected: its key has no value, not even an older one. */
    method OnReject(r: nat)
      requires Valid() && r < |requests| && requests[r].phase == Waiting
      modifies this
      ensures Valid() && State() == Step(old(State()), Reject(r))
      ensures !CacheHit(State(), requests[r].key)
    {
      Steps(Reject(r));
      var q := requests[r];
      values := values - {q.key};
      requests := requests[r := q.(phase := Settled)];
    }

    /** Finally nobody can join it any more, nor whatever else was registered for its key. */
    method OnFinally(r: nat)
      requires Valid() && r < |requests| && requests[r].phase == Settled
      modifies this
      ensures Valid() && State() == Step(old(State()), Finalize(r))
      ensures requests[r].key !in inflight && !Unfinished(State(), r)
    {
      Steps(Finalize(r));
      var q := requests[r];
      inflight := inflight - {q.key};
      requests := requests[r := q.(phase := Done)];
    }
  }
}
