/**
 A run in which the second of two equal updates changes the tables.

 A motor without a price is ordered with something paid, then gets its price, and the order is updated
 twice in the same way. A request cannot ask for a price of zero, but one below half a cent is stored
 as zero, and zero is what the column defaults to.
 */
module StalePercentage {
  import opened Text
  import opened Orders
  import opened OrderRuns
  import opened OrderIdempotence

  const ANY_ID: string -> bool := s => true
  const UNPRICED := Env(map["m" := Motor(0.0, "", "")], map["d" := Dealer("", "")], "", ANY_ID)
  const PRICED := Env(map["m" := Motor(200.0, "", "")], map["d" := Dealer("", "")], "", ANY_ID)
  const ADMIN := Scope(true, "u", {}, [])

  const CREATE := CreateRequest("p", At(1), Absent, "d", "c", "n", "t", "r", "", "", "", "", "j", "m",
                                1.0, 0.0, 100.0, 12, "approve", "", "", "", "")
  const UPDATE := UpdateRequest(None, Absent, Absent, None, None, None, None, None, None, None, None, None, None, None,
                                None, None, None, None, None, None, None, None, None)
  const NO_REFS := Refs(None, None, None, None, None)

  const DRAWN0 := Drawn(1, 2, 1, 2, 3, 1, 1, 1, 1, 1)
  const DRAWN1 := Drawn(3, 4, 4, 5, 6, 2, 2, 2, 2, 2)
  const DRAWN2 := Drawn(5, 6, 7, 8, 9, 3, 3, 3, 3, 3)

  const ORDERED := Order("p", 1, None, "d", "n", "t", "r", "", "", "", "", "j", "m",
                         1.0, 0.0, 0.0, 100.0, 0.0, 12, Lower("approve"), "", "u", 1, false)

  lemma UnpricedOrder()
    ensures NewOrder(UNPRICED, ADMIN, CREATE, 1) == Ok(ORDERED)
  {
    TrimOfClean("d");
    TrimOfClean("r");
  }

  lemma NotRejected()
    ensures !Rejected("approve") && !Rejected(Lower("approve")) && !TrimRejected(Lower("approve"))
  {
    var status := Lower("approve");
    assert |status| == 7 && status[0] == 'a' && status[6] == 'e';
    TrimOfClean(status);
    LowerIdempotent("approve");
  }

  const APPROVED := Db(map[1 := ORDERED], map[1 := [Attempt(1, "c", 1, Lower("approve"), "", 1)]])

  lemma UnpricedTables()
    ensures Create(EMPTY, UNPRICED, ADMIN, CREATE, DRAWN0).0 == APPROVED
  {
    UnpricedOrder();
    NotRejected();
    assert LiveIds(EMPTY.orders, "p") == {};
    assert FirstAttempts(CREATE, DRAWN0) == [Attempt(1, "c", 1, Lower("approve"), "", 1)];
    assert AfterCreate(EMPTY, ORDERED, CREATE, DRAWN0) == APPROVED;
  }

  lemma UpdateReceived(env: Env)
    ensures ParseRefs(UPDATE, env) == Ok(NO_REFS)
  {
  }

  /** The first update fills the price in and leaves the percentage. */
  lemma PricedOrder()
    ensures ChangedOrder(PRICED, ORDERED, NO_REFS, UPDATE) == Ok(ORDERED.(otr := 200.0))
    ensures StalePercent(PRICED, ORDERED, NO_REFS, UPDATE)
  {
    assert Percent(100.0, 200.0) == 50.0;
  }

  lemma FirstUpdate()
    ensures Update(APPROVED, PRICED, ADMIN, 1, UPDATE, DRAWN1)
         == (AfterUpdate(APPROVED, 1, ORDERED.(otr := 200.0), NO_REFS, UPDATE, DRAWN1), Ok(ORDERED.(otr := 200.0)))
  {
    UpdateReceived(PRICED);
    PricedOrder();
    assert LiveIds(APPROVED.orders, "p") - {1} == {};
    assert Requested(APPROVED, PRICED, ADMIN, 1, UPDATE) == Ok((NO_REFS, ORDERED.(otr := 200.0)));
  }

  const FILLED_IN := Db(map[1 := ORDERED.(otr := 200.0)], APPROVED.attempts)

  lemma AttemptKept()
    ensures var atts := APPROVED.attempts[1];
            RewriteAll(atts, false, NO_REFS, UPDATE) == atts && AddedAttempts(atts, false, NO_REFS, UPDATE, DRAWN1) == []
  {
    var atts := APPROVED.attempts[1];
    assert Rewrite(atts[0], false, NO_REFS, UPDATE) == Some(atts[0]);
    RewriteFixed(atts, false, NO_REFS, UPDATE);
  }

  lemma FirstUpdateTables()
    ensures AfterUpdate(APPROVED, 1, ORDERED.(otr := 200.0), NO_REFS, UPDATE, DRAWN1) == FILLED_IN
  {
    NotRejected();
    AttemptKept();
    var atts := APPROVED.attempts[1];
    assert atts + [] == atts;
    assert APPROVED.attempts[1 := atts] == APPROVED.attempts;
  }

  const ORDERING := CallCreate(UNPRICED, ADMIN, CREATE, DRAWN0)
  const UPDATING := CallUpdate(PRICED, ADMIN, 1, UPDATE, DRAWN1)
  const UPDATING_AGAIN := CallUpdate(PRICED, ADMIN, 1, UPDATE, DRAWN2)

  lemma RunMore(calls: seq<Call>, c: Call)
    ensures Run(calls + [c]) == Step(Run(calls), c)
  {
    assert (calls + [c])[..|calls|] == calls;
  }

  lemma DrawnAnew()
    ensures NewIds(EMPTY, DRAWN0) && NewIds(APPROVED, DRAWN1) && NewIds(FILLED_IN, DRAWN2)
  {
  }

  lemma UpdateCall(db: Db, env: Env, scope: Scope, id: Id, req: UpdateRequest, drawn: Drawn)
    requires db.orders.Keys == db.attempts.Keys && NewIds(db, drawn)
    ensures Step(db, CallUpdate(env, scope, id, req, drawn)) == Update(db, env, scope, id, req, drawn).0
  {
  }

  lemma AfterOrdering()
    ensures Run([ORDERING]) == APPROVED && Inv(APPROVED)
  {
    var none: seq<Call> := [];
    RunMore(none, ORDERING);
    assert none + [ORDERING] == [ORDERING];
    UnpricedTables();
    DrawnAnew();
    ReachableInv([ORDERING]);
  }

  lemma FirstFillsIn()
    ensures Update(APPROVED, PRICED, ADMIN, 1, UPDATE, DRAWN1) == (FILLED_IN, Ok(ORDERED.(otr := 200.0)))
  {
    FirstUpdate();
    FirstUpdateTables();
  }

  lemma TwoCalls(calls: seq<Call>, c: Call, d: Call)
    requires calls == [c]
    ensures Run([c, d]) == Step(Run(calls), d)
  {
    RunMore(calls, d);
    assert calls + [d] == [c, d];
  }

  lemma ThreeCalls(c: Call, d: Call, e: Call)
    ensures Run([c, d, e]) == Step(Run([c, d]), e)
  {
    RunMore([c, d], e);
    assert [c, d] + [e] == [c, d, e];
  }

  lemma AfterUpdating()
    ensures Run([ORDERING, UPDATING]) == FILLED_IN
  {
    AfterOrdering();
    TwoCalls([ORDERING], ORDERING, UPDATING);
    DrawnAnew();
    UpdateCall(APPROVED, PRICED, ADMIN, 1, UPDATE, DRAWN1);
    FirstFillsIn();
  }

  lemma DiffersIfStale(db: Db, env: Env, scope: Scope, id: Id, req: UpdateRequest, refs: Refs, d1: Drawn, d2: Drawn, o: Order, db1: Db)
    requires Inv(db) && NewIds(db, d1) && NewIds(db1, d2) && scope.MayChange(o, "orders:update_all")
    requires Update(db, env, scope, id, req, d1) == (db1, Ok(o)) && ParseRefs(req, env) == Ok(refs)
    requires id in db.orders && StalePercent(env, db.orders[id], refs, req)
    ensures Update(db1, env, scope, id, req, d2).0 != db1
  {
    UpdateTwice(db, env, scope, id, req, d1, d2);
  }

  lemma SecondUpdateDiffers()
    ensures Update(FILLED_IN, PRICED, ADMIN, 1, UPDATE, DRAWN2).0 != FILLED_IN
  {
    AfterOrdering();
    FirstFillsIn();
    UpdateReceived(PRICED);
    PricedOrder();
    DrawnAnew();
    DiffersIfStale(APPROVED, PRICED, ADMIN, 1, UPDATE, NO_REFS, DRAWN1, DRAWN2, ORDERED.(otr := 200.0), FILLED_IN);
  }

  /** The first update fills the price in, the second one the percentage. */
  lemma StaleRun()
    ensures Run([ORDERING, UPDATING, UPDATING_AGAIN]) != Run([ORDERING, UPDATING])
  {
    AfterUpdating();
    ThreeCalls(ORDERING, UPDATING, UPDATING_AGAIN);
    DrawnAnew();
    UpdateCall(FILLED_IN, PRICED, ADMIN, 1, UPDATE, DRAWN2);
    SecondUpdateDiffers();
  }
}
