/** What every run of Create, Update and Delete keeps true of the order tables. */
module OrderRuns {
  import opened Text
  import opened Finite
  import opened Orders

  /** Attempt numbers are 1 or 2, and no number and no identifier is used twice. */
  predicate Numbered(atts: seq<Attempt>) {
    (forall i | 0 <= i < |atts| :: atts[i].no == 1 || atts[i].no == 2)
    && (forall i, j | 0 <= i < j < |atts| :: atts[i].no != atts[j].no && atts[i].id != atts[j].id)
  }

  /** The attempts of an order agree with the order itself. */
  predicate InStep(o: Order, atts: seq<Attempt>) {
    Numbered(atts) && Lower(o.status) == o.status
    && (forall i | 0 <= i < |atts| && atts[i].no == 1 :: atts[i].status == o.status && atts[i].notes == o.notes)
    && (forall i | 0 <= i < |atts| && atts[i].no == 2 :: o.status == "reject")
  }

  predicate Priced(o: Order) {
    o.otr > 0.0 && o.dpPct == Percent(o.dpPaid, o.otr)
  }

  function LiveCount(orders: map<Id, Order>, pooling: string): nat {
    |LiveIds(orders, pooling)|
  }

  ghost predicate AtMostTwoLive(orders: map<Id, Order>) {
    forall p: string :: LiveCount(orders, p) <= 2
  }

  ghost predicate Inv(db: Db) {
    db.orders.Keys == db.attempts.Keys
    && AtMostTwoLive(db.orders)
    && (forall id | id in db.orders :: InStep(db.orders[id], db.attempts[id]))
  }

  ghost predicate AllPriced(db: Db) {
    forall id | id in db.orders :: Priced(db.orders[id])
  }

  predicate PositivePrices(env: Env) {
    forall m | m in env.motors :: env.motors[m].otr > 0.0
  }

  /** The identifiers drawn for a request are new to both tables. */
  predicate NewIds(db: Db, drawn: Drawn) {
    drawn.order !in db.orders && drawn.clone !in db.orders && drawn.order != drawn.clone
    && drawn.attempt1 != drawn.attempt2
    && (forall id | id in db.attempts :: forall i | 0 <= i < |db.attempts[id]| :: db.attempts[id][i].id != drawn.attempt2)
  }

  // ---------------------------------------------------------------- counting live orders

  lemma LiveAfterWrite(orders: map<Id, Order>, id: Id, o: Order, p: string)
    ensures LiveIds(orders[id := o], p)
         == if !o.deleted && o.pooling == p then LiveIds(orders, p) + {id} else LiveIds(orders, p) - {id}
  {
  }

  lemma WriteKeepsTwo(orders: map<Id, Order>, id: Id, o: Order)
    requires AtMostTwoLive(orders)
    requires o.deleted || |LiveIds(orders, o.pooling) - {id}| < 2
    ensures AtMostTwoLive(orders[id := o])
  {
    var orders' := orders[id := o];
    forall p: string ensures LiveCount(orders', p) <= 2 {
      LiveAfterWrite(orders, id, o, p);
      assert LiveCount(orders, p) <= 2;
      if !o.deleted && o.pooling == p {
        assert LiveIds(orders, p) + {id} == (LiveIds(orders, p) - {id}) + {id};
      } else {
        SubsetSize(LiveIds(orders, p) - {id}, LiveIds(orders, p));
      }
    }
  }

  /** Writing one row with attempts in step, on a pooling number with room, keeps the invariant. */
  lemma WriteKeepsInv(db: Db, id: Id, o: Order, atts: seq<Attempt>)
    requires Inv(db) && InStep(o, atts)
    requires o.deleted || |LiveIds(db.orders, o.pooling) - {id}| < 2
    ensures Inv(Db(db.orders[id := o], db.attempts[id := atts]))
  {
    WriteKeepsTwo(db.orders, id, o);
  }

  // ---------------------------------------------------------------- the copy of a rejected order

  lemma CopyInStep(source: Order, status: string, notes: string, company: string, drawn: Drawn)
    ensures var st := CloneStatus(source, status);
            InStep(Copy(source, st, notes, drawn.cloneAt), CloneAttempts(st, notes, company, drawn))
  {
    LowerIdempotent(Trim(status));
    LowerIdempotent(Trim(source.status));
  }

  lemma CopyKeepsInv(db: Db, source: Order, st: string, notes: string, atts: seq<Attempt>, drawn: Drawn)
    requires Inv(db) && drawn.clone !in db.orders && |LiveIds(db.orders, source.pooling)| < 2
    requires InStep(Copy(source, st, notes, drawn.cloneAt), atts)
    ensures var copy := Copy(source, st, notes, drawn.cloneAt);
            var db' := Db(db.orders[drawn.clone := copy], db.attempts[drawn.clone := atts]);
            Inv(db') && (AllPriced(db) && Priced(source) ==> AllPriced(db'))
  {
    assert LiveIds(db.orders, source.pooling) - {drawn.clone} == LiveIds(db.orders, source.pooling);
    WriteKeepsInv(db, drawn.clone, Copy(source, st, notes, drawn.cloneAt), atts);
  }

  lemma DuplicateKeepsInv(db: Db, source: Order, status: string, notes: string, company: string, drawn: Drawn)
    requires Inv(db) && drawn.clone !in db.orders
    ensures Inv(Duplicate(db, source, status, notes, company, drawn))
    ensures AllPriced(db) && Priced(source) ==> AllPriced(Duplicate(db, source, status, notes, company, drawn))
  {
    if |LiveIds(db.orders, source.pooling)| < 2 {
      var st := CloneStatus(source, status);
      CopyInStep(source, status, notes, company, drawn);
      CopyKeepsInv(db, source, st, notes, CloneAttempts(st, notes, company, drawn), drawn);
    }
  }

  // ---------------------------------------------------------------- create

  /** What a successful NewOrder says about the row it builds. */
  lemma NewOrderFacts(env: Env, scope: Scope, req: CreateRequest, now: int, o: Order)
    requires NewOrder(env, scope, req, now) == Ok(o)
    ensures o.pooling == req.pooling && o.status == Lower(req.status) && o.notes == req.notes
    ensures !o.deleted && o.createdAt == now
    ensures PositivePrices(env) ==> Priced(o)
  {
  }

  lemma NewRowKeepsInv(db: Db, o: Order, req: CreateRequest, drawn: Drawn)
    requires Inv(db) && NewIds(db, drawn) && |LiveIds(db.orders, o.pooling)| < 2
    requires o.status == Lower(req.status) && o.notes == req.notes
    ensures Inv(Db(db.orders[drawn.order := o], db.attempts[drawn.order := FirstAttempts(req, drawn)]))
  {
    LowerIdempotent(req.status);
    assert LiveIds(db.orders, o.pooling) - {drawn.order} == LiveIds(db.orders, o.pooling);
    WriteKeepsInv(db, drawn.order, o, FirstAttempts(req, drawn));
  }

  lemma AfterCreateKeepsInv(db: Db, o: Order, req: CreateRequest, drawn: Drawn)
    requires Inv(db) && NewIds(db, drawn) && |LiveIds(db.orders, o.pooling)| < 2
    requires o.status == Lower(req.status) && o.notes == req.notes
    ensures Inv(AfterCreate(db, o, req, drawn))
    ensures AllPriced(db) && Priced(o) ==> AllPriced(AfterCreate(db, o, req, drawn))
  {
    var db1 := Db(db.orders[drawn.order := o], db.attempts[drawn.order := FirstAttempts(req, drawn)]);
    NewRowKeepsInv(db, o, req, drawn);
    var (s, n) := CloneResult(o.status, o.notes, req.status2, req.notes2);
    DuplicateKeepsInv(db1, o, s, n, req.company2, drawn);
  }

  lemma CreateKeepsInv(db: Db, env: Env, scope: Scope, req: CreateRequest, drawn: Drawn)
    requires Inv(db) && NewIds(db, drawn)
    ensures Inv(Create(db, env, scope, req, drawn).0)
    ensures AllPriced(db) && PositivePrices(env) ==> AllPriced(Create(db, env, scope, req, drawn).0)
  {
    var r := NewOrder(env, scope, req, drawn.orderAt);
    if r.Ok? && |LiveIds(db.orders, r.value.pooling)| < 2 {
      NewOrderFacts(env, scope, req, drawn.orderAt, r.value);
      AfterCreateKeepsInv(db, r.value, req, drawn);
    }
  }

  // ---------------------------------------------------------------- update

  lemma {:induction false} RewriteSource(atts: seq<Attempt>, rejected: bool, refs: Refs, req: UpdateRequest)
    ensures forall x | x in RewriteAll(atts, rejected, refs, req) ::
              exists a | a in atts :: Rewrite(a, rejected, refs, req) == Some(x)
  {
    if atts != [] {
      RewriteSource(atts[..|atts| - 1], rejected, refs, req);
      assert atts == atts[..|atts| - 1] + [atts[|atts| - 1]];
    }
  }

  lemma {:induction false} RewriteNumbered(atts: seq<Attempt>, rejected: bool, refs: Refs, req: UpdateRequest)
    requires Numbered(atts)
    ensures Numbered(RewriteAll(atts, rejected, refs, req))
  {
    if atts != [] {
      var init, last := atts[..|atts| - 1], atts[|atts| - 1];
      RewriteNumbered(init, rejected, refs, req);
      RewriteSource(init, rejected, refs, req);
      var rs := RewriteAll(init, rejected, refs, req);
      forall i | 0 <= i < |rs| ensures rs[i].no != last.no && rs[i].id != last.id {
        var a :| a in init && Rewrite(a, rejected, refs, req) == Some(rs[i]);
      }
    }
  }

  /** An attempt that was kept agrees with the changed order. */
  lemma KeptInStep(atts: seq<Attempt>, o: Order, o': Order, refs: Refs, req: UpdateRequest, drawn: Drawn, x: Attempt)
    requires InStep(o, atts) && x in RewriteAll(atts, Rejected(o'.status), refs, req)
    requires forall i | 0 <= i < |atts| :: atts[i].id != drawn.attempt2
    requires o'.status == if req.status.Some? then Lower(req.status.value) else o.status
    requires o'.notes == OrElse(req.notes, o.notes) && Lower(o'.status) == o'.status
    ensures x.id != drawn.attempt2
    ensures x.no == 1 ==> x.status == o'.status && x.notes == o'.notes
    ensures x.no == 2 ==> o'.status == "reject" && HasAttempt(atts, 2)
  {
    RewriteSource(atts, Rejected(o'.status), refs, req);
    var a :| a in atts && Rewrite(a, Rejected(o'.status), refs, req) == Some(x);
    var i :| 0 <= i < |atts| && atts[i] == a;
  }

  lemma NumberedAppend(atts: seq<Attempt>, a: Attempt)
    requires Numbered(atts) && (a.no == 1 || a.no == 2)
    requires forall i | 0 <= i < |atts| :: atts[i].no != a.no && atts[i].id != a.id
    ensures Numbered(atts + [a])
  {
  }

  /** After the attempts were rewritten and the missing second one added, they are in step again. */
  lemma UpdatedInStep(atts: seq<Attempt>, o: Order, o': Order, refs: Refs, req: UpdateRequest, drawn: Drawn)
    requires InStep(o, atts)
    requires forall i | 0 <= i < |atts| :: atts[i].id != drawn.attempt2
    requires o'.status == if req.status.Some? then Lower(req.status.value) else o.status
    requires o'.notes == OrElse(req.notes, o.notes)
    ensures InStep(o', RewriteAll(atts, Rejected(o'.status), refs, req) + AddedAttempts(atts, Rejected(o'.status), refs, req, drawn))
  {
    var rejected := Rejected(o'.status);
    var rs, added := RewriteAll(atts, rejected, refs, req), AddedAttempts(atts, rejected, refs, req, drawn);
    RewriteNumbered(atts, rejected, refs, req);
    if req.status.Some? { LowerIdempotent(req.status.value); }
    forall i | 0 <= i < |rs|
      ensures rs[i].id != drawn.attempt2
      ensures rs[i].no == 1 ==> rs[i].status == o'.status && rs[i].notes == o'.notes
      ensures rs[i].no == 2 ==> o'.status == "reject" && HasAttempt(atts, 2)
    {
      KeptInStep(atts, o, o', refs, req, drawn, rs[i]);
    }
    if added == [] {
      assert rs + added == rs;
    } else {
      NumberedAppend(rs, added[0]);
    }
  }

  lemma ChangedOrderFacts(env: Env, o: Order, refs: Refs, req: UpdateRequest, o': Order)
    requires ChangedOrder(env, o, refs, req) == Ok(o')
    ensures o'.status == if req.status.Some? then Lower(req.status.value) else o.status
    ensures o'.notes == OrElse(req.notes, o.notes) && o'.deleted == o.deleted
    ensures o.otr > 0.0 && PositivePrices(env) ==> Priced(o')
  {
  }

  lemma SaveKeepsInv(db: Db, id: Id, o: Order, refs: Refs, req: UpdateRequest, drawn: Drawn)
    requires Inv(db) && NewIds(db, drawn) && id in db.orders && |LiveIds(db.orders, o.pooling) - {id}| < 2
    requires o.status == if req.status.Some? then Lower(req.status.value) else db.orders[id].status
    requires o.notes == OrElse(req.notes, db.orders[id].notes)
    ensures Inv(AfterSave(db, id, o, refs, req, drawn))
    ensures AllPriced(db) && Priced(o) ==> AllPriced(AfterSave(db, id, o, refs, req, drawn))
  {
    var atts, rejected := db.attempts[id], Rejected(o.status);
    UpdatedInStep(atts, db.orders[id], o, refs, req, drawn);
    WriteKeepsInv(db, id, o, RewriteAll(atts, rejected, refs, req) + AddedAttempts(atts, rejected, refs, req, drawn));
  }

  lemma AfterUpdateKeepsInv(db: Db, id: Id, o: Order, refs: Refs, req: UpdateRequest, drawn: Drawn)
    requires Inv(db) && NewIds(db, drawn) && id in db.orders && |LiveIds(db.orders, o.pooling) - {id}| < 2
    requires o.status == if req.status.Some? then Lower(req.status.value) else db.orders[id].status
    requires o.notes == OrElse(req.notes, db.orders[id].notes)
    ensures Inv(AfterUpdate(db, id, o, refs, req, drawn))
    ensures AllPriced(db) && Priced(o) ==> AllPriced(AfterUpdate(db, id, o, refs, req, drawn))
  {
    SaveKeepsInv(db, id, o, refs, req, drawn);
    if TrimRejected(o.status) && !TrimRejected(db.orders[id].status) {
      var atts := db.attempts[id] + AddedAttempts(db.attempts[id], Rejected(o.status), refs, req, drawn);
      var (s, n, company) := CopyOf(o, atts, refs, req);
      DuplicateKeepsInv(AfterSave(db, id, o, refs, req, drawn), o, s, n, company, drawn);
    }
  }

  lemma AcceptedUpdateKeepsInv(db: Db, env: Env, id: Id, refs: Refs, o: Order, req: UpdateRequest, drawn: Drawn)
    requires Inv(db) && NewIds(db, drawn) && id in db.orders && |LiveIds(db.orders, o.pooling) - {id}| < 2
    requires ChangedOrder(env, db.orders[id], refs, req) == Ok(o)
    ensures Inv(AfterUpdate(db, id, o, refs, req, drawn))
    ensures AllPriced(db) && PositivePrices(env) ==> AllPriced(AfterUpdate(db, id, o, refs, req, drawn))
  {
    ChangedOrderFacts(env, db.orders[id], refs, req, o);
    AfterUpdateKeepsInv(db, id, o, refs, req, drawn);
  }

  lemma RequestedFacts(db: Db, env: Env, scope: Scope, id: Id, req: UpdateRequest, refs: Refs, o: Order)
    requires Requested(db, env, scope, id, req) == Ok((refs, o))
    ensures Live(db, id) && ParseRefs(req, env) == Ok(refs) && ChangedOrder(env, db.orders[id], refs, req) == Ok(o)
  {
  }

  lemma UpdateKeepsInv(db: Db, env: Env, scope: Scope, id: Id, req: UpdateRequest, drawn: Drawn)
    requires Inv(db) && NewIds(db, drawn)
    ensures Inv(Update(db, env, scope, id, req, drawn).0)
    ensures AllPriced(db) && PositivePrices(env) ==> AllPriced(Update(db, env, scope, id, req, drawn).0)
  {
    match Requested(db, env, scope, id, req)
    case Err(_) =>
    case Ok((refs, o)) =>
      RequestedFacts(db, env, scope, id, req, refs, o);
      if |LiveIds(db.orders, o.pooling) - {id}| < 2 {
        AcceptedUpdateKeepsInv(db, env, id, refs, o, req, drawn);
      }
  }

  // ---------------------------------------------------------------- delete

  lemma MarkKeepsInv(db: Db, id: Id)
    requires Inv(db) && id in db.orders
    ensures Inv(db.(orders := db.orders[id := db.orders[id].(deleted := true)]))
  {
    WriteKeepsInv(db, id, db.orders[id].(deleted := true), db.attempts[id]);
    assert db.attempts[id := db.attempts[id]] == db.attempts;
  }

  lemma DeleteKeepsInv(db: Db, scope: Scope, id: Id)
    requires Inv(db)
    ensures Inv(Delete(db, scope, id).0)
    ensures AllPriced(db) ==> AllPriced(Delete(db, scope, id).0)
  {
    if Live(db, id) {
      MarkKeepsInv(db, id);
    }
  }

  // ---------------------------------------------------------------- every run

  datatype Call =
    | CallCreate(env: Env, scope: Scope, create: CreateRequest, drawn: Drawn)
    | CallUpdate(env: Env, scope: Scope, id: Id, update: UpdateRequest, drawn: Drawn)
    | CallDelete(scope: Scope, id: Id)

  const EMPTY := Db(map[], map[])

  /** One call; a draw that is not new cannot happen and changes nothing. */
  ghost function Step(db: Db, c: Call): (db': Db)
    requires db.orders.Keys == db.attempts.Keys
    ensures db'.orders.Keys == db'.attempts.Keys
  {
    match c
    case CallCreate(env, scope, req, drawn) => if NewIds(db, drawn) then Create(db, env, scope, req, drawn).0 else db
    case CallUpdate(env, scope, id, req, drawn) => if NewIds(db, drawn) then Update(db, env, scope, id, req, drawn).0 else db
    case CallDelete(scope, id) => Delete(db, scope, id).0
  }

  ghost function Run(calls: seq<Call>): (db: Db)
    ensures db.orders.Keys == db.attempts.Keys
  {
    if calls == [] then EMPTY else Step(Run(calls[..|calls| - 1]), calls[|calls| - 1])
  }

  ghost predicate PositiveCall(c: Call) {
    c.CallDelete? || PositivePrices(c.env)
  }

  lemma StepKeepsInv(db: Db, c: Call)
    requires Inv(db)
    ensures Inv(Step(db, c))
    ensures AllPriced(db) && PositiveCall(c) ==> AllPriced(Step(db, c))
  {
    match c
    case CallCreate(env, scope, req, drawn) => if NewIds(db, drawn) { CreateKeepsInv(db, env, scope, req, drawn); }
    case CallUpdate(env, scope, id, req, drawn) => if NewIds(db, drawn) { UpdateKeepsInv(db, env, scope, id, req, drawn); }
    case CallDelete(scope, id) => DeleteKeepsInv(db, scope, id);
  }

  /** Every reachable state satisfies the invariant; with positive prices every percentage is right. */
  lemma {:induction false} ReachableInv(calls: seq<Call>)
    ensures Inv(Run(calls))
    ensures (forall i | 0 <= i < |calls| :: PositiveCall(calls[i])) ==> AllPriced(Run(calls))
  {
    if calls != [] {
      ReachableInv(calls[..|calls| - 1]);
      StepKeepsInv(Run(calls[..|calls| - 1]), calls[|calls| - 1]);
    } else {
      assert forall p: string :: LiveIds(EMPTY.orders, p) == {};
    }
  }
}
