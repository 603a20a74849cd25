/** The session repository over its three key spaces, and the session service on top of it. */
module SessionService {
  import opened Text
  import opened Sessions

  lemma PrunedStep(s: Store, user: Key, dead: set<Key>, id: Key)
    ensures Pruned(Pruned(s, user, dead), user, {id}) == Pruned(s, user, dead + {id})
    ensures Pruned(s, user, {}) == s
  {
    if Alive(s.users, user, s.now) {
      var v := s.users[user].value;
      assert v - dead - {id} == v - (dead + {id}) && v - {} == v;
      assert s.users[user := s.users[user].(value := v)] == s.users;
      assert s.users[user := s.users[user].(value := v - dead)][user := s.users[user].(value := v - dead - {id})]
          == s.users[user := s.users[user].(value := v - dead - {id})];
    }
  }

  /** A list of live sessions, one for each of these ids. */
  ghost predicate Lists(list: seq<Session>, s: Store, ids: set<Key>) {
    (forall x | x in list :: x.id in ids && LiveSession(s, x.id) && x == s.sessions[x.id].value)
    && (forall id | id in ids :: exists x | x in list :: x.id == id)
    && (forall i, j | 0 <= i < j < |list| :: list[i].id != list[j].id)
  }

  ghost predicate OwnIds(s: Store, user: Key) {
    forall id | id in Members(s, user) && LiveSession(s, id) :: s.sessions[id].value.id == id
  }

  predicate AllDead(s: Store, ids: set<Key>) {
    forall id | id in ids :: !LiveSession(s, id)
  }

  predicate AllLive(s: Store, ids: set<Key>) {
    forall id | id in ids :: LiveSession(s, id)
  }

  /** How far the walk over a user's set has come: ids still to visit, found dead, found live. */
  datatype Progress = Progress(before: Store, left: set<Key>, dead: set<Key>, live: set<Key>)

  ghost predicate Halfway(s: Store, user: Key, list: seq<Session>, p: Progress) {
    s == Pruned(p.before, user, p.dead)
    && p.left + p.dead + p.live == Members(p.before, user) && p.left !! p.live
    && AllDead(p.before, p.dead) && AllLive(p.before, p.live)
    && Lists(list, p.before, p.live)
  }

  /** With no id left to visit, the dead and the live ones are told apart. */
  lemma AllVisited(s: Store, user: Key, list: seq<Session>, p: Progress)
    requires Halfway(s, user, list, p) && p.left == {}
    ensures p.dead == Dead(p.before, user) && p.live == Members(p.before, user) - Dead(p.before, user)
  {
  }

  lemma ListsMore(list: seq<Session>, s: Store, ids: set<Key>, x: Session)
    requires Lists(list, s, ids) && x.id !in ids && LiveSession(s, x.id) && x == s.sessions[x.id].value
    ensures Lists(list + [x], s, ids + {x.id})
  {
    forall id | id in ids ensures exists y | y in list + [x] :: y.id == id {
      var y :| y in list && y.id == id;
      assert y in list + [x];
    }
    assert x in list + [x];
    forall i | 0 <= i < |list| ensures list[i].id != x.id { assert list[i] in list; }
  }

  /** The sessions of an earlier state, but for some that are gone. */
  ghost predicate Survive(s: Store, before: Store, gone: set<Key>) {
    Agree(s) && s.now == before.now
    && (forall id :: LiveSession(s, id) <==> LiveSession(before, id) && id !in gone)
    && (forall id | LiveSession(s, id) :: s.sessions[id] == before.sessions[id])
  }

  lemma SurviveRemoval(s: Store, before: Store, gone: set<Key>, id: Key)
    requires Survive(s, before, gone)
    ensures Survive(Removed(s, id), before, gone + {id})
  {
    RemoveAgrees(s, id);
  }

  lemma SurviveLive(s: Store, before: Store, gone: set<Key>, user: Key)
    requires Survive(s, before, gone)
    ensures LiveOf(s, user) == LiveOf(before, user) - gone
  {
  }

  /** Entries of other keys are as they were, and none is added for them. */
  predicate OthersKept<V(==)>(before: map<Key, V>, after: map<Key, V>, but: set<Key>) {
    before.Keys - but == after.Keys - but && forall k | k in before && k !in but :: k in after && after[k] == before[k]
  }

  class Repository {
    var now: int
    var sessions: map<Key, Entry<Session>>
    var users: map<Key, Entry<set<Key>>>
    var tokens: map<Key, Entry<Key>>

    ghost function State(): Store
      reads this
    {
      Store(now, sessions, users, tokens)
    }

    constructor (start: int)
      ensures State() == Store(start, map[], map[], map[])
    {
      now, sessions, users, tokens := start, map[], map[], map[];
    }

    method Create(x: Session) returns (ok: bool)
      modifies this
      ensures ok == (x.expiresAt > old(now))
      ensures State() == if ok then Created(old(State()), x) else old(State())
      ensures ok ==> x.id in sessions && sessions[x.id] == Entry(x, x.expiresAt) && x.token in tokens && tokens[x.token] == Entry(x.id, x.expiresAt)
      ensures ok ==> x.user in users && users[x.user].expires == x.expiresAt
                     && users[x.user].value == {x.id} + (if Alive(old(users), x.user, now) then old(users)[x.user].value else {})
      ensures now == old(now) && OthersKept(old(sessions), sessions, {x.id}) && OthersKept(old(users), users, {x.user})
              && OthersKept(old(tokens), tokens, {x.token})
    {
      var ttl := x.expiresAt - now;
      if ttl <= 0 {
        return false;
      }
      var members := if Alive(users, x.user, now) then users[x.user].value else {};
      sessions := sessions[x.id := Entry(x, now + ttl)];
      users := users[x.user := Entry(members + {x.id}, now + ttl)];
      tokens := tokens[x.token := Entry(x.id, now + ttl)];
      return true;
    }

    method GetBySessionId(id: Key) returns (r: Option<Session>)
      ensures r == if LiveSession(State(), id) then Some(sessions[id].value) else None
    {
      if Alive(sessions, id, now) {
        return Some(sessions[id].value);
      }
      return None;
    }

    /** Removes one dead id from the user's set. */
    method Prune(user: Key, id: Key, ghost before: Store, ghost dead: set<Key>)
      requires State() == Pruned(before, user, dead) && id in Members(before, user)
      modifies this`users
      ensures State() == Pruned(before, user, dead + {id})
    {
      PrunedStep(before, user, dead, id);
      users := users[user := users[user].(value := users[user].value - {id})];
    }

    /** Looks up one id of the user's set: its session is listed, or the id is removed from the set. */
    method Visit(user: Key, id: Key, list: seq<Session>, ghost p: Progress) returns (list': seq<Session>, ghost p': Progress)
      requires Halfway(State(), user, list, p) && id in p.left
      requires LiveSession(p.before, id) ==> p.before.sessions[id].value.id == id
      modifies this`users
      ensures Halfway(State(), user, list', p') && p'.before == p.before && p'.left == p.left - {id}
    {
      var session := GetBySessionId(id);
      if session.None? {
        Prune(user, id, p.before, p.dead);
        list', p' := list, p.(left := p.left - {id}, dead := p.dead + {id});
      } else {
        ListsMore(list, p.before, p.live, session.value);
        list', p' := list + [session.value], p.(left := p.left - {id}, live := p.live + {id});
      }
    }

    /** Reads each id of the user's set, removing from the set every id that has no session. */
    method Collect(user: Key) returns (list: seq<Session>)
      requires OwnIds(State(), user)
      modifies this`users
      ensures State() == Pruned(old(State()), user, Dead(old(State()), user))
      ensures Lists(list, old(State()), Members(old(State()), user) - Dead(old(State()), user))
    {
      var left := if Alive(users, user, now) then users[user].value else {};
      ghost var p := Progress(State(), left, {}, {});
      list := [];
      PrunedStep(State(), user, {}, 0);
      while left != {}
        invariant Halfway(State(), user, list, p) && p.left == left && p.before == old(State())
        decreases |left|
      {
        var id :| id in left;
        left := left - {id};
        list, p := Visit(user, id, list, p);
      }
      AllVisited(State(), user, list, p);
    }

    /** Lists exactly the user's live sessions, each once, and prunes the dead ids of the user's set. */
    method GetByUserId(user: Key) returns (list: seq<Session>)
      requires Agree(State())
      modifies this`users
      ensures State() == Pruned(old(State()), user, Dead(old(State()), user)) && Agree(State())
      ensures Lists(list, old(State()), LiveOf(old(State()), user))
      ensures Alive(users, user, now) ==> users[user].value == LiveOf(old(State()), user) && users[user].expires == old(users)[user].expires
      ensures OthersKept(old(users), users, {user}) && (user in users <==> user in old(users))
    {
      MembersAreLive(State(), user);
      PruneAgrees(State(), user, Dead(State(), user));
      assert OwnIds(State(), user) by {
        forall id | LiveSession(State(), id) ensures sessions[id].value.id == id { assert Reachable(State(), id); }
      }
      assert Members(State(), user) - Dead(State(), user) == LiveOf(State(), user);
      list := Collect(user);
    }

    method GetByToken(token: Key) returns (r: Option<Session>)
      requires Agree(State())
      ensures r.Some? <==> Alive(tokens, token, now)
      ensures r.Some? ==> r.value.id == tokens[token].value && LiveSession(State(), r.value.id)
                          && r.value == sessions[r.value.id].value && r.value.token == token
    {
      if !Alive(tokens, token, now) {
        return None;
      }
      assert TokenLeads(State(), token) && Reachable(State(), tokens[token].value);
      r := GetBySessionId(tokens[token].value);
    }

    /** Stores the session again with the time to live it still has. */
    method UpdateActivity(id: Key) returns (ok: bool)
      modifies this`sessions
      ensures ok == LiveSession(old(State()), id)
      ensures State() == Touched(old(State()), id)
      ensures ok ==> sessions == old(sessions)[id := Entry(old(sessions)[id].value.(lastActivity := now), old(sessions)[id].expires)]
      ensures !ok ==> sessions == old(sessions)
    {
      var session := GetBySessionId(id);
      if session.None? {
        return false;
      }
      var ttl := sessions[id].expires - now;
      sessions := sessions[id := Entry(session.value.(lastActivity := now), now + ttl)];
      return true;
    }

    method Delete(id: Key) returns (ok: bool)
      modifies this
      ensures ok == LiveSession(old(State()), id)
      ensures State() == Removed(old(State()), id)
      ensures ok ==> id !in sessions && old(sessions)[id].value.token !in tokens
                     && (Alive(users, old(sessions)[id].value.user, now) ==> id !in users[old(sessions)[id].value.user].value)
      ensures ok ==> OthersKept(old(sessions), sessions, {id}) && OthersKept(old(tokens), tokens, {old(sessions)[id].value.token})
                     && OthersKept(old(users), users, {old(sessions)[id].value.user})
      ensures !ok ==> State() == old(State())
    {
      var session := GetBySessionId(id);
      if session.None? {
        return false;
      }
      var x := session.value;
      sessions := sessions - {id};
      if Alive(users, x.user, now) {
        users := users[x.user := users[x.user].(value := users[x.user].value - {id})];
      }
      tokens := tokens - {x.token};
      return true;
    }

    // -------------------------------------------------------------- the service

    method CreateSession(id: Key, user: Key, token: Key, lifetime: int) returns (r: Option<Session>)
      requires Agree(State()) && WithinLifetime(State(), lifetime)
      requires UnusedId(State(), Session(id, user, token, now, now + lifetime))
      requires UnusedToken(State(), Session(id, user, token, now, now + lifetime))
      modifies this
      ensures State() == Step(old(State()), CallCreate(id, user, token), lifetime)
      ensures Agree(State()) && WithinLifetime(State(), lifetime)
      ensures r.Some? <==> lifetime > 0
      ensures r.Some? ==> r.value.id in LiveOf(State(), user) && r.value == Session(id, user, token, now, now + lifetime)
                          && sessions[id] == Entry(r.value, now + lifetime)
    {
      var x := Session(id, user, token, now, now + lifetime);
      if lifetime > 0 { CreateAgrees(State(), x); }
      var ok := Create(x);
      r := if ok then Some(x) else None;
    }

    /** A token is valid while its session lives; validation records the activity and moves no expiry. */
    method ValidateSession(token: Key) returns (r: Option<Session>)
      requires Agree(State())
      modifies this
      ensures State() == Step(old(State()), CallValidate(token), 0) && Agree(State())
      ensures r.Some? <==> exists id | id in old(sessions) :: LiveSession(old(State()), id) && old(sessions)[id].value.token == token
      ensures r.Some? ==> r.value.token == token && LiveSession(State(), r.value.id)
      ensures r.Some? ==> r.value.id in old(sessions) && users == old(users) && tokens == old(tokens)
                          && sessions == old(sessions)[r.value.id := Entry(r.value.(lastActivity := now), old(sessions)[r.value.id].expires)]
      ensures r.None? ==> State() == old(State())
    {
      ghost var before := State();
      var session := GetByToken(token);
      if session.None? {
        forall id | LiveSession(before, id) ensures before.sessions[id].value.token != token { assert Reachable(before, id); }
        return None;
      }
      var x := session.value;
      assert Reachable(before, x.id);
      if now > x.expiresAt {
        assert false;
      }
      TouchAgrees(State(), x.id);
      var _ := UpdateActivity(x.id);
      r := session;
    }

    /** Deletes one listed session unless it is the current one. */
    method DestroyUnless(id: Key, current: Key, ghost before: Store, ghost gone: set<Key>)
      requires Survive(State(), before, gone)
      modifies this
      ensures Survive(State(), before, gone + if id != current then {id} else {})
    {
      if id != current {
        SurviveRemoval(State(), before, gone, id);
        var _ := Delete(id);
      } else {
        assert gone + {} == gone;
      }
    }

    method DestroyOtherSessions(user: Key, current: Key)
      requires Agree(State())
      modifies this
      ensures Agree(State()) && now == old(now)
      ensures LiveOf(State(), user) == LiveOf(old(State()), user) * {current}
      ensures forall other | other != user :: LiveOf(State(), other) == LiveOf(old(State()), other)
    {
      ghost var before := State();
      var list := GetByUserId(user);
      ghost var gone: set<Key> := {};
      var i := 0;
      while i < |list|
        invariant i <= |list| && Survive(State(), before, gone) && gone == OthersIn(list[..i], current)
      {
        OthersAppend(list, i, current);
        DestroyUnless(list[i].id, current, before, gone);
        gone := OthersIn(list[..i + 1], current);
        i := i + 1;
      }
      assert list[..i] == list;
      GoneAreOthers(list, before, user, current);
      OthersGone(State(), before, user, current);
    }
  }

  ghost function OthersIn(list: seq<Session>, current: Key): set<Key> {
    set x | x in list && x.id != current :: x.id
  }

  lemma OthersAppend(list: seq<Session>, i: nat, current: Key)
    requires i < |list|
    ensures OthersIn(list[..i + 1], current) == OthersIn(list[..i], current) + if list[i].id != current then {list[i].id} else {}
  {
    assert list[..i + 1] == list[..i] + [list[i]];
  }

  lemma GoneAreOthers(list: seq<Session>, before: Store, user: Key, current: Key)
    requires Lists(list, before, LiveOf(before, user))
    ensures OthersIn(list, current) == LiveOf(before, user) - {current}
  {
    forall id | id in LiveOf(before, user) && id != current ensures id in OthersIn(list, current) {
      var x :| x in list && x.id == id;
    }
  }

  /** Once the user's other sessions are gone, the current one may be left, and other users have all of theirs. */
  lemma OthersGone(s: Store, before: Store, user: Key, current: Key)
    requires Survive(s, before, LiveOf(before, user) - {current})
    ensures LiveOf(s, user) == LiveOf(before, user) * {current}
    ensures forall other | other != user :: LiveOf(s, other) == LiveOf(before, other)
  {
    forall other ensures LiveOf(s, other) == LiveOf(before, other) - (LiveOf(before, user) - {current}) {
      SurviveLive(s, before, LiveOf(before, user) - {current}, other);
    }
  }
}
