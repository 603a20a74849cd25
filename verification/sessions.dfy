/** Login sessions kept in a store of expiring keys: by session, by user and by token. */
module Sessions {
  import opened Finite

  /** Session ids, users and tokens are only ever compared for equality. */
  type Key = nat

  datatype Session = Session(id: Key, user: Key, token: Key, lastActivity: int, expiresAt: int)

  /** A value that the store forgets at an instant. */
  datatype Entry<T> = Entry(value: T, expires: int)

  /** The three indexes: session:, user_sessions: and token_session: keys. */
  datatype Store = Store(now: int, sessions: map<Key, Entry<Session>>,
                         users: map<Key, Entry<set<Key>>>, tokens: map<Key, Entry<Key>>)

  predicate Alive<T>(m: map<Key, Entry<T>>, key: Key, now: int) {
    key in m && m[key].expires > now
  }

  predicate LiveSession(s: Store, id: Key) {
    Alive(s.sessions, id, s.now)
  }

  function Members(s: Store, user: Key): set<Key> {
    if Alive(s.users, user, s.now) then s.users[user].value else {}
  }

  /** The live sessions of a user. */
  function LiveOf(s: Store, user: Key): set<Key> {
    set id | id in s.sessions && LiveSession(s, id) && s.sessions[id].value.user == user
  }

  /** Every live session can be reached by its token and through its user's set, which outlives it. */
  ghost predicate Reachable(s: Store, id: Key)
    requires id in s.sessions
  {
    var e := s.sessions[id];
    e.value.id == id && e.value.expiresAt == e.expires
    && e.value.token in s.tokens && s.tokens[e.value.token] == Entry(id, e.expires)
    && e.value.user in s.users && id in s.users[e.value.user].value && e.expires <= s.users[e.value.user].expires
  }

  /** Every live token entry leads to a live session with that token. */
  ghost predicate TokenLeads(s: Store, token: Key)
    requires token in s.tokens
  {
    var id := s.tokens[token].value;
    LiveSession(s, id) && s.sessions[id].value.token == token
  }

  /** The indexes agree. Ids left in a user's set by expired sessions are the only slack. */
  ghost predicate Agree(s: Store) {
    (forall id | LiveSession(s, id) :: Reachable(s, id))
    && (forall t | Alive(s.tokens, t, s.now) :: TokenLeads(s, t))
    && (forall u, id | Alive(s.users, u, s.now) && id in s.users[u].value && LiveSession(s, id) :: s.sessions[id].value.user == u)
  }

  // ---------------------------------------------------------------- the repository on values

  function Created(s: Store, x: Session): Store {
    var e := x.expiresAt;
    s.(sessions := s.sessions[x.id := Entry(x, e)],
       users := s.users[x.user := Entry(Members(s, x.user) + {x.id}, e)],
       tokens := s.tokens[x.token := Entry(x.id, e)])
  }

  function Touched(s: Store, id: Key): Store {
    if LiveSession(s, id)
    then s.(sessions := s.sessions[id := s.sessions[id].(value := s.sessions[id].value.(lastActivity := s.now))])
    else s
  }

  function Removed(s: Store, id: Key): Store {
    if !LiveSession(s, id) then s
    else
      var x := s.sessions[id].value;
      s.(sessions := s.sessions - {id}, tokens := s.tokens - {x.token},
         users := if Alive(s.users, x.user, s.now)
                  then s.users[x.user := s.users[x.user].(value := s.users[x.user].value - {id})] else s.users)
  }

  function Pruned(s: Store, user: Key, ids: set<Key>): Store {
    if Alive(s.users, user, s.now)
    then s.(users := s.users[user := s.users[user].(value := s.users[user].value - ids)]) else s
  }

  function Advanced(s: Store, seconds: nat): Store {
    s.(now := s.now + seconds)
  }

  /** The identifier is not in use; session identifiers are drawn at random. */
  predicate UnusedId(s: Store, x: Session) {
    !LiveSession(s, x.id) && (forall u | u in s.users :: x.id !in s.users[u].value)
  }

  predicate UnusedToken(s: Store, x: Session) {
    !Alive(s.tokens, x.token, s.now)
  }

  /** No live session of the same user expires later. */
  predicate LastToExpire(s: Store, x: Session) {
    forall id | id in LiveOf(s, x.user) :: s.sessions[id].expires <= x.expiresAt
  }

  // ---------------------------------------------------------------- what each step keeps

  /**
   EXPIRE moves the end of the whole user set and SET overwrites the token entry, so creation keeps
   the indexes in agreement exactly when the new session expires last and its token is not in use.
   */
  lemma CreateAgrees(s: Store, x: Session)
    requires Agree(s) && UnusedId(s, x) && x.expiresAt > s.now
    ensures Agree(Created(s, x)) <==> LastToExpire(s, x) && UnusedToken(s, x)
  {
    if LastToExpire(s, x) && UnusedToken(s, x) {
      CreateKeeps(s, x);
    } else if !LastToExpire(s, x) {
      var id :| id in LiveOf(s, x.user) && s.sessions[id].expires > x.expiresAt;
      assert Reachable(s, id);
      assert LiveSession(Created(s, x), id) && !Reachable(Created(s, x), id);
    } else {
      assert TokenLeads(s, x.token);
      var id := s.tokens[x.token].value;
      assert LiveSession(Created(s, x), id) && !Reachable(Created(s, x), id);
    }
  }

  lemma CreateKeeps(s: Store, x: Session)
    requires Agree(s) && UnusedId(s, x) && x.expiresAt > s.now && LastToExpire(s, x) && UnusedToken(s, x)
    ensures Agree(Created(s, x))
  {
    var s' := Created(s, x);
    forall id | LiveSession(s', id) ensures Reachable(s', id) {
      if id != x.id {
        assert LiveSession(s, id) && Reachable(s, id);
        assert s.sessions[id].value.user == x.user ==> id in LiveOf(s, x.user);
      }
    }
    forall t | Alive(s'.tokens, t, s'.now) ensures TokenLeads(s', t) {
      if t != x.token { assert TokenLeads(s, t); }
    }
  }

  /** A session lives from its creation up to the instant at which it expires. */
  lemma LivesUntilExpiry(s: Store, x: Session, seconds: nat)
    ensures LiveSession(Advanced(Created(s, x), seconds), x.id) <==> s.now + seconds < x.expiresAt
    ensures Alive(Created(s, x).tokens, x.token, s.now + seconds) <==> s.now + seconds < x.expiresAt
  {
  }

  lemma TouchAgrees(s: Store, id: Key)
    requires Agree(s)
    ensures Agree(Touched(s, id))
    ensures forall other :: LiveSession(Touched(s, id), other) <==> LiveSession(s, other)
  {
    var s' := Touched(s, id);
    forall x | LiveSession(s', x) ensures Reachable(s', x) { assert Reachable(s, x); }
    forall t | Alive(s'.tokens, t, s'.now) ensures TokenLeads(s', t) { assert TokenLeads(s, t); }
  }

  lemma RemoveAgrees(s: Store, id: Key)
    requires Agree(s)
    ensures Agree(Removed(s, id)) && !LiveSession(Removed(s, id), id)
    ensures forall other | other != id :: LiveSession(Removed(s, id), other) <==> LiveSession(s, other)
  {
    var s' := Removed(s, id);
    if LiveSession(s, id) { assert Reachable(s, id); }
    forall x | LiveSession(s', x) ensures Reachable(s', x) {
      assert Reachable(s, x);
    }
    forall t | Alive(s'.tokens, t, s'.now) ensures TokenLeads(s', t) { assert TokenLeads(s, t); }
  }

  lemma PruneAgrees(s: Store, user: Key, ids: set<Key>)
    requires Agree(s) && forall id | id in ids :: !LiveSession(s, id)
    ensures Agree(Pruned(s, user, ids))
  {
    var s' := Pruned(s, user, ids);
    forall x | LiveSession(s', x) ensures Reachable(s', x) { assert Reachable(s, x); }
    forall t | Alive(s'.tokens, t, s'.now) ensures TokenLeads(s', t) { assert TokenLeads(s, t); }
  }

  lemma AdvanceAgrees(s: Store, seconds: nat)
    requires Agree(s)
    ensures Agree(Advanced(s, seconds))
  {
    var s' := Advanced(s, seconds);
    forall x | LiveSession(s', x) ensures Reachable(s', x) { assert Reachable(s, x); }
    forall t | Alive(s'.tokens, t, s'.now) ensures TokenLeads(s', t) {
      assert TokenLeads(s, t) && Reachable(s, s.tokens[t].value);
    }
  }

  /** Listing through the user's set finds exactly the user's live sessions. */
  lemma MembersAreLive(s: Store, user: Key)
    requires Agree(s)
    ensures LiveOf(s, user) == set id | id in Members(s, user) && LiveSession(s, id)
  {
    forall id | id in LiveOf(s, user) ensures id in Members(s, user) { assert Reachable(s, id); }
  }

  // ---------------------------------------------------------------- runs of the service

  /** The service gives every session the same lifetime, counted from its creation. */
  datatype Call =
    | CallCreate(id: Key, user: Key, token: Key)
    | CallValidate(token: Key)
    | CallActivity(activityId: Key)
    | CallList(listUser: Key)
    | CallDestroy(destroyId: Key)
    | CallDestroyOthers(owner: Key, current: Key)
    | Tick(seconds: nat)

  function Dead(s: Store, user: Key): set<Key> {
    set id | id in Members(s, user) && !LiveSession(s, id)
  }

  /** Removing a set of sessions one after the other. */
  ghost function RemovedAll(s: Store, ids: set<Key>): Store
    decreases |ids|
  {
    if ids == {} then s else var id := Pick(ids); RemovedAll(Removed(s, id), ids - {id})
  }

  ghost function Step(s: Store, c: Call, lifetime: int): Store {
    match c
    case CallCreate(id, user, token) =>
      var x := Session(id, user, token, s.now, s.now + lifetime);
      if lifetime > 0 && UnusedId(s, x) && UnusedToken(s, x) then Created(s, x) else s
    case CallValidate(token) => if Alive(s.tokens, token, s.now) then Touched(s, s.tokens[token].value) else s
    case CallActivity(id) => Touched(s, id)
    case CallList(user) => Pruned(s, user, Dead(s, user))
    case CallDestroy(id) => Removed(s, id)
    case CallDestroyOthers(user, current) => RemovedAll(Pruned(s, user, Dead(s, user)), LiveOf(s, user) - {current})
    case Tick(seconds) => Advanced(s, seconds)
  }

  ghost function Run(calls: seq<Call>, start: int, lifetime: int): Store {
    if calls == [] then Store(start, map[], map[], map[])
    else Step(Run(calls[..|calls| - 1], start, lifetime), calls[|calls| - 1], lifetime)
  }

  /** No stored session outlives one lifetime from now. */
  ghost predicate WithinLifetime(s: Store, lifetime: int) {
    forall id | id in s.sessions :: s.sessions[id].expires <= s.now + lifetime
  }

  lemma {:induction false} RemoveAllAgrees(s: Store, ids: set<Key>, lifetime: int)
    requires Agree(s) && WithinLifetime(s, lifetime)
    ensures var s' := RemovedAll(s, ids);
            Agree(s') && WithinLifetime(s', lifetime) && s'.now == s.now
            && (forall id :: LiveSession(s', id) <==> LiveSession(s, id) && id !in ids)
            && (forall id | LiveSession(s', id) :: s'.sessions[id] == s.sessions[id])
    decreases |ids|
  {
    if ids != {} {
      var id := Pick(ids);
      RemoveAgrees(s, id);
      RemoveAllAgrees(Removed(s, id), ids - {id}, lifetime);
    }
  }

  lemma DestroyOthersAgrees(s: Store, user: Key, current: Key, lifetime: int)
    requires Agree(s) && WithinLifetime(s, lifetime)
    ensures var s' := Step(s, CallDestroyOthers(user, current), lifetime); Agree(s') && WithinLifetime(s', lifetime)
  {
    PruneAgrees(s, user, Dead(s, user));
    RemoveAllAgrees(Pruned(s, user, Dead(s, user)), LiveOf(s, user) - {current}, lifetime);
  }

  lemma CallCreateAgrees(s: Store, id: Key, user: Key, token: Key, lifetime: int)
    requires Agree(s) && WithinLifetime(s, lifetime)
    ensures var s' := Step(s, CallCreate(id, user, token), lifetime); Agree(s') && WithinLifetime(s', lifetime)
  {
    var x := Session(id, user, token, s.now, s.now + lifetime);
    if lifetime > 0 && UnusedId(s, x) && UnusedToken(s, x) { CreateAgrees(s, x); }
  }

  lemma StepAgrees(s: Store, c: Call, lifetime: int)
    requires Agree(s) && WithinLifetime(s, lifetime)
    ensures Agree(Step(s, c, lifetime)) && WithinLifetime(Step(s, c, lifetime), lifetime)
  {
    match c
    case CallCreate(id, user, token) => CallCreateAgrees(s, id, user, token, lifetime);
    case CallValidate(token) => if Alive(s.tokens, token, s.now) { TouchAgrees(s, s.tokens[token].value); }
    case CallActivity(id) => TouchAgrees(s, id);
    case CallList(user) => PruneAgrees(s, user, Dead(s, user));
    case CallDestroy(id) => RemoveAgrees(s, id);
    case CallDestroyOthers(user, current) => DestroyOthersAgrees(s, user, current, lifetime);
    case Tick(seconds) => AdvanceAgrees(s, seconds);
  }

  /** The indexes agree in every state the service can reach. */
  lemma {:induction false} RunAgrees(calls: seq<Call>, start: int, lifetime: int)
    ensures Agree(Run(calls, start, lifetime)) && WithinLifetime(Run(calls, start, lifetime), lifetime)
  {
    if calls != [] {
      RunAgrees(calls[..|calls| - 1], start, lifetime);
      StepAgrees(Run(calls[..|calls| - 1], start, lifetime), calls[|calls| - 1], lifetime);
    }
  }

  /** Destroying the other sessions leaves at most the current one, and touches no other user. */
  lemma DestroyOthersLeavesCurrent(s: Store, user: Key, current: Key, lifetime: int)
    requires Agree(s) && WithinLifetime(s, lifetime)
    ensures var s' := Step(s, CallDestroyOthers(user, current), lifetime);
            LiveOf(s', user) == LiveOf(s, user) * {current}
            && forall other | other != user :: LiveOf(s', other) == LiveOf(s, other)
  {
    PruneAgrees(s, user, Dead(s, user));
    var gone := LiveOf(s, user) - {current};
    RemoveAllAgrees(Pruned(s, user, Dead(s, user)), gone, lifetime);
    var s' := Step(s, CallDestroyOthers(user, current), lifetime);
    forall other ensures LiveOf(s', other) == LiveOf(s, other) - gone {
    }
    forall other | other != user ensures LiveOf(s, other) !! gone {
    }
  }
}
