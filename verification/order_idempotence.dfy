/** Sending the same update twice: exactly when the second call changes nothing. */
module OrderIdempotence {
  import opened Text
  import opened Finite
  import opened Orders
  import opened OrderRuns

  /** A stored price of zero or less that Update fills in from the catalogue after computing the percentage. */
  predicate StalePercent(env: Env, o: Order, refs: Refs, req: UpdateRequest) {
    refs.motor.None? && o.otr <= 0.0 && o.motor in env.motors && o.motor != "" && env.motors[o.motor].otr > 0.0
    && o.dpPct != Percent(OrElse(req.dpPaid, o.dpPaid), env.motors[o.motor].otr)
  }

  /** The stages of a change write disjoint fields, so each finds its own fields already written. */
  lemma StagesTwice(env: Env, o: Order, refs: Refs, req: UpdateRequest, o1: Order, o2: Order, o3: Order, o': Order)
    requires WithTimes(WithPlainFields(o, refs, req), req) == Ok(o1)
    requires WithProvince(o1, req) == Ok(o2) && WithPayment(env, o2, refs, req) == Ok(o3)
    requires o' == o3 || o' == o3.(otr := o'.otr)
    ensures WithPlainFields(o', refs, req) == o'
    ensures WithTimes(o', req) == Ok(o') && WithProvince(o', req) == Ok(o')
  {
  }

  lemma PaymentTwice(env: Env, o2: Order, refs: Refs, req: UpdateRequest, o3: Order, o': Order)
    requires WithPayment(env, o2, refs, req) == Ok(o3) && WithCatalogue(env, o3, refs) == Ok(o')
    ensures WithPayment(env, o', refs, req)
         == Ok(if o'.otr > 0.0 then o'.(dpPct := Percent(o'.dpPaid, o'.otr)) else o')
    ensures o' == o3 || o' == o3.(otr := o'.otr)
    ensures o'.otr > 0.0 ==> (o'.dpPct != Percent(o'.dpPaid, o'.otr) <==> StalePercent(env, o2, refs, req))
    ensures o'.otr <= 0.0 ==> !StalePercent(env, o2, refs, req)
    ensures forall pct :: var p := o'.(dpPct := pct); WithCatalogue(env, p, refs) == Ok(p)
  {
  }

  lemma ChangeTwice(env: Env, o: Order, refs: Refs, req: UpdateRequest, o': Order)
    requires ChangedOrder(env, o, refs, req) == Ok(o')
    ensures var again := ChangedOrder(env, o', refs, req);
            again.Ok? && (again == Ok(o') <==> !StalePercent(env, o, refs, req))
            && again.value.status == o'.status && again.value.pooling == o'.pooling
  {
    var o1 := WithTimes(WithPlainFields(o, refs, req), req).value;
    var o2 := WithProvince(o1, req).value;
    var o3 := WithPayment(env, o2, refs, req).value;
    PaymentTwice(env, o2, refs, req, o3, o');
    StagesTwice(env, o, refs, req, o1, o2, o3, o');
    assert StalePercent(env, o2, refs, req) == StalePercent(env, o, refs, req);
    assert o'.(dpPct := o'.dpPct) == o';
  }

  lemma RewriteTwice(a: Attempt, x: Attempt, rejected: bool, refs: Refs, req: UpdateRequest)
    requires Rewrite(a, rejected, refs, req) == Some(x)
    ensures Rewrite(x, rejected, refs, req) == Some(x)
  {
  }

  lemma {:induction false} RewriteFixed(atts: seq<Attempt>, rejected: bool, refs: Refs, req: UpdateRequest)
    requires forall x | x in atts :: Rewrite(x, rejected, refs, req) == Some(x)
    ensures RewriteAll(atts, rejected, refs, req) == atts
  {
    if atts != [] {
      RewriteFixed(atts[..|atts| - 1], rejected, refs, req);
      assert atts == atts[..|atts| - 1] + [atts[|atts| - 1]];
    }
  }

  lemma {:induction false} RewriteTarget(atts: seq<Attempt>, a: Attempt, rejected: bool, refs: Refs, req: UpdateRequest)
    requires a in atts && Rewrite(a, rejected, refs, req).Some?
    ensures Rewrite(a, rejected, refs, req).value in RewriteAll(atts, rejected, refs, req)
  {
    var init := atts[..|atts| - 1];
    assert atts == init + [atts[|atts| - 1]];
    if a in init {
      RewriteTarget(init, a, rejected, refs, req);
    }
  }

  lemma KeptSettle(atts: seq<Attempt>, rejected: bool, refs: Refs, req: UpdateRequest, x: Attempt)
    requires x in RewriteAll(atts, rejected, refs, req)
    ensures Rewrite(x, rejected, refs, req) == Some(x)
  {
    RewriteSource(atts, rejected, refs, req);
    var a :| a in atts && Rewrite(a, rejected, refs, req) == Some(x);
    RewriteTwice(a, x, rejected, refs, req);
  }

  lemma AddedSettle(atts: seq<Attempt>, rejected: bool, refs: Refs, req: UpdateRequest, d: Drawn)
    ensures forall x | x in AddedAttempts(atts, rejected, refs, req, d) :: Rewrite(x, rejected, refs, req) == Some(x)
  {
  }

  /** Once a second attempt was asked for there is one. */
  lemma SecondThere(atts: seq<Attempt>, rejected: bool, refs: Refs, req: UpdateRequest, d: Drawn)
    requires rejected && refs.company2.Some?
    ensures HasAttempt(RewriteAll(atts, rejected, refs, req) + AddedAttempts(atts, rejected, refs, req, d), 2)
  {
    var kept, added := RewriteAll(atts, rejected, refs, req), AddedAttempts(atts, rejected, refs, req, d);
    if HasAttempt(atts, 2) {
      var i :| 0 <= i < |atts| && atts[i].no == 2;
      RewriteTarget(atts, atts[i], rejected, refs, req);
      var j :| 0 <= j < |kept| && kept[j] == Rewrite(atts[i], rejected, refs, req).value;
      assert (kept + added)[j].no == 2;
    } else {
      assert (kept + added)[|kept|].no == 2;
    }
  }

  /** The attempts an update leaves are the attempts it would leave again. */
  lemma AttemptsSettle(atts: seq<Attempt>, rejected: bool, refs: Refs, req: UpdateRequest, d1: Drawn, d2: Drawn)
    ensures var settled := RewriteAll(atts, rejected, refs, req) + AddedAttempts(atts, rejected, refs, req, d1);
            RewriteAll(settled, rejected, refs, req) == settled && AddedAttempts(settled, rejected, refs, req, d2) == []
  {
    var settled := RewriteAll(atts, rejected, refs, req) + AddedAttempts(atts, rejected, refs, req, d1);
    AddedSettle(atts, rejected, refs, req, d1);
    forall x | x in settled ensures Rewrite(x, rejected, refs, req) == Some(x) {
      if x in RewriteAll(atts, rejected, refs, req) { KeptSettle(atts, rejected, refs, req, x); }
    }
    RewriteFixed(settled, rejected, refs, req);
    if rejected && refs.company2.Some? { SecondThere(atts, rejected, refs, req, d1); }
  }

  /** After an update the pooling number still has room for the order itself, copy included. */
  lemma RoomAgain(db: Db, id: Id, o: Order, refs: Refs, req: UpdateRequest, drawn: Drawn)
    requires id in db.orders && id in db.attempts && !o.deleted
    requires drawn.clone !in db.orders && |LiveIds(db.orders, o.pooling) - {id}| < 2
    ensures |LiveIds(AfterUpdate(db, id, o, refs, req, drawn).orders, o.pooling) - {id}| < 2
  {
    var orders1 := db.orders[id := o];
    var others := LiveIds(db.orders, o.pooling) - {id};
    LiveAfterWrite(db.orders, id, o, o.pooling);
    assert LiveIds(orders1, o.pooling) == others + {id};
    var orders2 := AfterUpdate(db, id, o, refs, req, drawn).orders;
    if orders2 != orders1 {
      assert |others + {id}| == |others| + 1;
      assert others == {};
      LiveAfterWrite(orders1, drawn.clone, orders2[drawn.clone], o.pooling);
      SubsetSize(LiveIds(orders2, o.pooling) - {id}, {drawn.clone});
    } else {
      assert LiveIds(orders1, o.pooling) - {id} == others;
    }
  }

  lemma AfterUpdateRow(db: Db, id: Id, o: Order, refs: Refs, req: UpdateRequest, drawn: Drawn)
    requires id in db.orders && id in db.attempts && drawn.clone !in db.orders
    ensures var db1 := AfterUpdate(db, id, o, refs, req, drawn);
            id in db1.orders && id in db1.attempts && db1.orders[id] == o
            && db1.attempts[id] == RewriteAll(db.attempts[id], Rejected(o.status), refs, req)
                                   + AddedAttempts(db.attempts[id], Rejected(o.status), refs, req, drawn)
  {
  }

  /** Saving the same row again, with the same attempts, writes nothing new and never copies the order. */
  lemma AfterUpdateTwice(db: Db, id: Id, o: Order, refs: Refs, req: UpdateRequest, d1: Drawn, d2: Drawn)
    requires id in db.orders && id in db.attempts && d1.clone !in db.orders
    ensures var db1 := AfterUpdate(db, id, o, refs, req, d1);
            id in db1.orders && id in db1.attempts && AfterUpdate(db1, id, o, refs, req, d2) == db1
  {
    var db1 := AfterUpdate(db, id, o, refs, req, d1);
    AfterUpdateRow(db, id, o, refs, req, d1);
    AttemptsSettle(db.attempts[id], Rejected(o.status), refs, req, d1, d2);
    assert db1.orders[id := o] == db1.orders;
    assert db1.attempts[id := db1.attempts[id]] == db1.attempts;
    assert db1.attempts[id] + [] == db1.attempts[id];
  }

  /** What the second of two equal updates sees before its transaction. */
  lemma RequestedAgain(db: Db, env: Env, scope: Scope, id: Id, req: UpdateRequest, refs: Refs, o: Order, db1: Db)
    requires Requested(db, env, scope, id, req) == Ok((refs, o))
    requires id in db1.orders && db1.orders[id] == o
    ensures var again := ChangedOrder(env, o, refs, req);
            again.Ok? && (again == Ok(o) <==> !StalePercent(env, db.orders[id], refs, req))
            && again.value.status == o.status && again.value.pooling == o.pooling
            && Requested(db1, env, scope, id, req)
               == if scope.MayChange(o, "orders:update_all") then Ok((refs, again.value)) else Err(NotAllowed)
    ensures !o.deleted && ParseRefs(req, env) == Ok(refs)
  {
    ChangeTwice(env, db.orders[id], refs, req, o);
    ChangedOrderFacts(env, db.orders[id], refs, req, o);
  }

  /** The second call, by a caller who may make it. */
  lemma AllowedTwice(db: Db, env: Env, scope: Scope, id: Id, req: UpdateRequest, refs: Refs, o: Order, d1: Drawn, d2: Drawn)
    requires id in db.orders && db.orders.Keys == db.attempts.Keys && d1.clone !in db.orders
    requires Requested(db, env, scope, id, req) == Ok((refs, o)) && scope.MayChange(o, "orders:update_all")
    requires |LiveIds(db.orders, o.pooling) - {id}| < 2 && d2.clone != id
    ensures var db1 := AfterUpdate(db, id, o, refs, req, d1);
            var (db2, r2) := Update(db1, env, scope, id, req, d2);
            var stale := StalePercent(env, db.orders[id], refs, req);
            r2.Ok? && (r2 == Ok(o) <==> !stale) && (db2 == db1 <==> !stale)
  {
    var db1 := AfterUpdate(db, id, o, refs, req, d1);
    AfterUpdateRow(db, id, o, refs, req, d1);
    RequestedAgain(db, env, scope, id, req, refs, o, db1);
    RoomAgain(db, id, o, refs, req, d1);
    var o2 := ChangedOrder(env, o, refs, req).value;
    assert Update(db1, env, scope, id, req, d2) == (AfterUpdate(db1, id, o2, refs, req, d2), Ok(o2));
    if o2 == o {
      AfterUpdateTwice(db, id, o, refs, req, d1, d2);
    } else {
      SecondRow(db1, id, o2, refs, req, d2);
    }
  }

  lemma SecondRow(db: Db, id: Id, o: Order, refs: Refs, req: UpdateRequest, d: Drawn)
    requires id in db.orders && id in db.attempts && d.clone != id
    ensures AfterUpdate(db, id, o, refs, req, d).orders[id] == o
  {
  }

  /** What a second call adds to an accepted first one with the same request: nothing, but for a stale percentage. */
  ghost predicate AddsNothingUnlessStale(before: Order, env: Env, scope: Scope, refs: Refs, req: UpdateRequest,
                                         first: (Db, Result<Order>), second: (Db, Result<Order>)) {
    first.1.Ok?
    && var stale, may := StalePercent(env, before, refs, req), scope.MayChange(first.1.value, "orders:update_all");
       (second.0 == first.0 <==> !stale || !may) && (may ==> second.1.Ok? && (second.1 == first.1 <==> !stale))
  }

  /** The second of two equal updates, the first of which was accepted with this row. */
  lemma AcceptedTwice(db: Db, env: Env, scope: Scope, id: Id, req: UpdateRequest, refs: Refs, o: Order, d1: Drawn, d2: Drawn)
    requires id in db.orders && db.orders.Keys == db.attempts.Keys && d1.clone !in db.orders && d2.clone != id
    requires Requested(db, env, scope, id, req) == Ok((refs, o)) && |LiveIds(db.orders, o.pooling) - {id}| < 2
    ensures var db1 := AfterUpdate(db, id, o, refs, req, d1);
            AddsNothingUnlessStale(db.orders[id], env, scope, refs, req, (db1, Ok(o)), Update(db1, env, scope, id, req, d2))
  {
    if scope.MayChange(o, "orders:update_all") {
      AllowedTwice(db, env, scope, id, req, refs, o, d1, d2);
    } else {
      AfterUpdateRow(db, id, o, refs, req, d1);
      RequestedAgain(db, env, scope, id, req, refs, o, AfterUpdate(db, id, o, refs, req, d1));
    }
  }

  lemma UpdateAccepted(db: Db, env: Env, scope: Scope, id: Id, req: UpdateRequest, d: Drawn) returns (refs: Refs, o: Order)
    requires db.orders.Keys == db.attempts.Keys && Update(db, env, scope, id, req, d).1.Ok?
    ensures Requested(db, env, scope, id, req) == Ok((refs, o)) && |LiveIds(db.orders, o.pooling) - {id}| < 2
    ensures id in db.orders && ParseRefs(req, env) == Ok(refs)
    ensures Update(db, env, scope, id, req, d) == (AfterUpdate(db, id, o, refs, req, d), Ok(o))
  {
    refs, o := Requested(db, env, scope, id, req).value.0, Requested(db, env, scope, id, req).value.1;
    RequestedFacts(db, env, scope, id, req, refs, o);
  }

  lemma NewForAll(db: Db, id: Id, d: Drawn)
    requires NewIds(db, d) && id in db.orders
    ensures d.clone != id && d.clone !in db.orders
  {
  }

  /**
   The second of two equal updates leaves both tables as the first left them, unless the first
   filled in a price behind the percentage and the caller may still change the order. Otherwise it
   succeeds again whenever the caller still may: the pooling check passes and no copy is made.
   */
  lemma UpdateTwice(db: Db, env: Env, scope: Scope, id: Id, req: UpdateRequest, d1: Drawn, d2: Drawn)
    requires Inv(db) && NewIds(db, d1) && NewIds(Update(db, env, scope, id, req, d1).0, d2)
    requires Update(db, env, scope, id, req, d1).1.Ok?
    ensures id in db.orders && ParseRefs(req, env).Ok?
    ensures var first := Update(db, env, scope, id, req, d1);
            AddsNothingUnlessStale(db.orders[id], env, scope, ParseRefs(req, env).value, req, first, Update(first.0, env, scope, id, req, d2))
  {
    var refs, o := UpdateAccepted(db, env, scope, id, req, d1);
    AfterUpdateRow(db, id, o, refs, req, d1);
    NewForAll(db, id, d1);
    NewForAll(AfterUpdate(db, id, o, refs, req, d1), id, d2);
    AcceptedTwice(db, env, scope, id, req, refs, o, d1, d2);
  }

  /** A refused update changes nothing, so repeating it is refused for the same reason. */
  lemma RefusedTwice(db: Db, env: Env, scope: Scope, id: Id, req: UpdateRequest, d1: Drawn, d2: Drawn)
    requires db.orders.Keys == db.attempts.Keys
    requires Update(db, env, scope, id, req, d1).1.Err?
    ensures Update(db, env, scope, id, req, d1).0 == db
    ensures Update(db, env, scope, id, req, d2) == Update(db, env, scope, id, req, d1)
  {
  }

  /** With positive prices throughout, an update is idempotent in every reachable state. */
  lemma PricedUpdateTwice(db: Db, env: Env, scope: Scope, id: Id, req: UpdateRequest, d1: Drawn, d2: Drawn)
    requires Inv(db) && AllPriced(db) && NewIds(db, d1) && NewIds(Update(db, env, scope, id, req, d1).0, d2)
    ensures var db1 := Update(db, env, scope, id, req, d1).0;
            Update(db1, env, scope, id, req, d2).0 == db1
  {
    if Update(db, env, scope, id, req, d1).1.Ok? {
      UpdateTwice(db, env, scope, id, req, d1, d2);
    } else {
      RefusedTwice(db, env, scope, id, req, d1, d2);
    }
  }
}
