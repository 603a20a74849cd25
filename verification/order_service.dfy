/** The order service over its tables: rows are overwritten field by field and attempts one by one. */
module OrderService {
  import opened Text
  import opened Orders
  import opened OrderRuns
  import opened OrderEffects
  import opened UpdateEffects

  /** The stored attempts after saving one of them under its identifier. */
  function Saved(atts: seq<Attempt>, a: Attempt): seq<Attempt> {
    seq(|atts|, i requires 0 <= i < |atts| => if atts[i].id == a.id then a else atts[i])
  }

  /** The stored attempts without the one that has this identifier. */
  function Without(atts: seq<Attempt>, id: Id): seq<Attempt> {
    if atts == [] then []
    else (if atts[0].id == id then [] else [atts[0]]) + Without(atts[1..], id)
  }

  lemma SavedAt(pre: seq<Attempt>, x: Attempt, post: seq<Attempt>, a: Attempt)
    requires a.id == x.id && forall y | y in pre + post :: y.id != a.id
    ensures Saved(pre + [x] + post, a) == pre + [a] + post
  {
    assert forall i | 0 <= i < |pre| :: pre[i] in pre + post;
    assert forall i | 0 <= i < |post| :: post[i] in pre + post;
  }

  lemma {:induction false} WithoutNone(atts: seq<Attempt>, id: Id)
    requires forall y | y in atts :: y.id != id
    ensures Without(atts, id) == atts
  {
    if atts != [] { WithoutNone(atts[1..], id); }
  }

  lemma {:induction false} WithoutAt(pre: seq<Attempt>, x: Attempt, post: seq<Attempt>)
    requires forall y | y in pre + post :: y.id != x.id
    ensures Without(pre + [x] + post, x.id) == pre + post
  {
    if pre == [] {
      assert [x] + post == pre + [x] + post && ([x] + post)[1..] == post;
      WithoutNone(post, x.id);
      assert pre + post == post;
    } else {
      WithoutAt(pre[1..], x, post);
      assert (pre + [x] + post)[1..] == pre[1..] + [x] + post;
      assert pre[0] in pre + post;
      assert pre + post == [pre[0]] + (pre[1..] + post);
    }
  }

  /** Attempts already rewritten, then the one at hand, then the rest: no identifier repeats. */
  lemma OthersDiffer(atts: seq<Attempt>, i: nat, rejected: bool, refs: Refs, req: UpdateRequest)
    requires Numbered(atts) && i < |atts|
    ensures forall y | y in RewriteAll(atts[..i], rejected, refs, req) + atts[i + 1..] :: y.id != atts[i].id
    ensures RewriteAll(atts[..i + 1], rejected, refs, req)
         == RewriteAll(atts[..i], rejected, refs, req)
            + if Rewrite(atts[i], rejected, refs, req).Some? then [Rewrite(atts[i], rejected, refs, req).value] else []
    ensures atts[i..] == [atts[i]] + atts[i + 1..]
  {
    RewriteSource(atts[..i], rejected, refs, req);
    assert atts[..i + 1][..i] == atts[..i];
    forall y | y in RewriteAll(atts[..i], rejected, refs, req) ensures y.id != atts[i].id {
      var a :| a in atts[..i] && Rewrite(a, rejected, refs, req) == Some(y);
    }
  }

  /** The attempts after some turns of the loop: those before the next one rewritten, the others as fetched. */
  ghost function Partly(atts: seq<Attempt>, i: nat, rejected: bool, refs: Refs, req: UpdateRequest): seq<Attempt>
    requires i <= |atts|
  {
    RewriteAll(atts[..i], rejected, refs, req) + atts[i..]
  }

  lemma PartlyEnds(atts: seq<Attempt>, rejected: bool, refs: Refs, req: UpdateRequest)
    ensures Partly(atts, 0, rejected, refs, req) == atts
    ensures Partly(atts, |atts|, rejected, refs, req) == RewriteAll(atts, rejected, refs, req)
  {
    assert atts[..|atts|] == atts;
  }

  lemma WrittenAgain<K, V>(m: map<K, V>, k: K, v: V, v': V)
    ensures m[k := v][k := v'] == m[k := v']
  {
  }

  class Service {
    var orders: map<Id, Order>
    var attempts: map<Id, seq<Attempt>>

    ghost function Tables(): Db
      reads this
    {
      Db(orders, attempts)
    }

    constructor ()
      ensures Tables() == EMPTY
    {
      orders, attempts := map[], map[];
    }

    /** The copy's first attempt, unless there is no second company. */
    method InsertCloneAttempt(status: string, notes: string, company: string, drawn: Drawn)
      modifies this`attempts
      ensures attempts == old(attempts)[drawn.clone := CloneAttempts(status, notes, company, drawn)]
    {
      attempts := attempts[drawn.clone := []];
      var financeId := Trim(company);
      if financeId == "" {
        return;
      }
      attempts := attempts[drawn.clone := [Attempt(drawn.cloneAttempt, financeId, 1, status, Trim(notes), drawn.cloneAttemptAt)]];
    }

    method DuplicateOrderRow(source: Order, cloneStatus: string, cloneNotes: string, company: string, drawn: Drawn)
      modifies this
      ensures Tables() == Duplicate(old(Tables()), source, cloneStatus, cloneNotes, company, drawn)
    {
      var poolingCount := |LiveIds(orders, source.pooling)|;
      if poolingCount >= 2 {
        return;
      }
      var status := Lower(Trim(cloneStatus));
      if status == "" {
        status := Lower(Trim(source.status));
      }
      assert status == CloneStatus(source, cloneStatus);
      var copy := source.(status := status, notes := Trim(cloneNotes), createdAt := drawn.cloneAt, deleted := false);
      orders := orders[drawn.clone := copy];
      InsertCloneAttempt(status, cloneNotes, company, drawn);
    }

    /** The transaction of Create once the pooling number was found to have room. */
    method InsertOrder(order: Order, req: CreateRequest, drawn: Drawn)
      modifies this
      ensures Tables() == AfterCreate(old(Tables()), order, req, drawn)
    {
      orders := orders[drawn.order := order];
      var stored := [Attempt(drawn.attempt1, req.company, 1, Lower(req.status), req.notes, drawn.attempt1At)];
      if Lower(req.status) == "reject" && req.company2 != "" && req.status2 != "" {
        stored := stored + [Attempt(drawn.attempt2, req.company2, 2, Lower(req.status2), req.notes2, drawn.attempt2At)];
      }
      assert stored == FirstAttempts(req, drawn);
      attempts := attempts[drawn.order := stored];
      if Lower(Trim(order.status)) == "reject" {
        var (s, n) := CloneResult(order.status, order.notes, req.status2, req.notes2);
        DuplicateOrderRow(order, s, n, req.company2, drawn);
      }
    }

    method CreateOrder(env: Env, scope: Scope, req: CreateRequest, drawn: Drawn) returns (r: Result<Order>)
      requires Inv(Tables()) && NewIds(Tables(), drawn)
      modifies this
      ensures (Tables(), r) == Create(old(Tables()), env, scope, req, drawn)
      ensures Inv(Tables())
      ensures r.Ok? <==> Creatable(env, req) && !TwoLive(old(orders), req.pooling)
      ensures r == Err(PoolingFull) <==> Creatable(env, req) && TwoLive(old(orders), req.pooling)
      ensures r.Err? ==> Tables() == old(Tables()) && (r.error == PoolingFull || NotCreatable(env, req, r.error))
      ensures r.Ok? ==> CreatedRow(env, scope, req, drawn.orderAt, r.value) && CreateLeaves(old(Tables()), Tables(), r.value, req, drawn)
    {
      CreateEffects(Tables(), env, scope, req, drawn);
      CreateKeepsInv(Tables(), env, scope, req, drawn);
      r := NewOrder(env, scope, req, drawn.orderAt);
      if r.Ok? {
        if |LiveIds(orders, r.value.pooling)| >= 2 {
          return Err(PoolingFull);
        }
        InsertOrder(r.value, req, drawn);
      }
    }

    /** Overwrites the fields that need no check, one by one. */
    method ApplyPlainFields(o: Order, refs: Refs, req: UpdateRequest) returns (order: Order)
      ensures order == WithPlainFields(o, refs, req)
    {
      order := o;
      order := order.(pooling := OrElse(req.pooling, order.pooling));
      order := order.(consumerName := OrElse(req.consumerName, order.consumerName));
      order := order.(consumerPhone := OrElse(req.consumerPhone, order.consumerPhone));
      order := order.(dealer := OrElse(refs.dealer, order.dealer));
      order := order.(regency := OrElse(req.regency, order.regency));
      order := order.(district := OrElse(req.district, order.district));
      order := order.(village := OrElse(req.village, order.village));
      order := order.(address := OrElse(req.address, order.address));
      order := order.(job := OrElse(refs.job, order.job));
      order := order.(dpGross := OrElse(req.dpGross, order.dpGross));
      order := order.(tenor := OrElse(req.tenor, order.tenor));
      order := order.(status := if req.status.Some? then Lower(req.status.value) else order.status);
      order := order.(notes := OrElse(req.notes, order.notes));
    }

    /** Overwrites motor, price and down payment, and recomputes the percentage. */
    method ApplyPayment(env: Env, o: Order, refs: Refs, req: UpdateRequest) returns (r: Result<Order>)
      ensures r == WithPayment(env, o, refs, req)
    {
      var order := o;
      if refs.motor.Some? {
        order := order.(motor := refs.motor.value);
        if order.motor !in env.motors { return Err(MotorNotFound); }
        order := order.(otr := env.motors[order.motor].otr);
      }
      if req.installment.Some? {
        if req.installment.value < 0.0 { return Err(NegativeInstallment); }
        order := order.(installment := req.installment.value);
      }
      if req.dpPaid.Some? { order := order.(dpPaid := req.dpPaid.value); }
      if order.otr > 0.0 { order := order.(dpPct := Percent(order.dpPaid, order.otr)); }
      return Ok(order);
    }

    /** Overwrites a fetched row as the request asks, refusing where the request is wrong. */
    method ApplyChanges(env: Env, o: Order, refs: Refs, req: UpdateRequest) returns (r: Result<Order>)
      ensures r == ChangedOrder(env, o, refs, req)
      ensures r.Ok? ==> r.value.status == (if req.status.Some? then Lower(req.status.value) else o.status)
                        && r.value.notes == OrElse(req.notes, o.notes) && r.value.deleted == o.deleted
                        && (o.otr > 0.0 && PositivePrices(env) ==> Priced(r.value))
    {
      var order := ApplyPlainFields(o, refs, req);
      order :- WithTimes(order, req);
      order :- WithProvince(order, req);
      order :- ApplyPayment(env, order, refs, req);
      r := WithCatalogue(env, order, refs);
      if r.Ok? { ChangedOrderFacts(env, o, refs, req, r.value); }
    }

    /** One round of the loop of Update: the attempt at hand is saved, or deleted. */
    method RewriteOne(id: Id, fetched: Attempt, rejected: bool, refs: Refs, req: UpdateRequest,
                      ghost done: seq<Attempt>, ghost rest: seq<Attempt>)
      requires id in attempts && attempts[id] == done + [fetched] + rest
      requires forall y | y in done + rest :: y.id != fetched.id
      modifies this`attempts
      ensures var x := Rewrite(fetched, rejected, refs, req);
              attempts == old(attempts)[id := done + (if x.Some? then [x.value] else []) + rest]
    {
      var att := fetched;
      var keep := true;
      if att.no == 1 {
        if refs.company.Some? { att := att.(company := refs.company.value); }
        if req.status.Some? { att := att.(status := Lower(req.status.value)); }
        if req.notes.Some? { att := att.(notes := req.notes.value); }
      }
      if att.no == 2 {
        if !rejected || (req.company2.Some? && refs.company2.None?) {
          keep := false;
        } else {
          if refs.company2.Some? { att := att.(company := refs.company2.value); }
          if req.status2.Some? && req.status2.value != "" { att := att.(status := Lower(req.status2.value)); }
          if req.notes2.Some? { att := att.(notes := req.notes2.value); }
        }
      }
      if att.no >= 3 {
        keep := false;
      }
      assert Rewrite(fetched, rejected, refs, req) == if keep then Some(att) else None;
      if keep {
        SavedAt(done, fetched, rest, att);
        attempts := attempts[id := Saved(attempts[id], att)];
      } else {
        WithoutAt(done, fetched, rest);
        attempts := attempts[id := Without(attempts[id], fetched.id)];
        assert done + [] + rest == done + rest;
      }
    }

    /** One turn of the loop. */
    method RewriteNext(id: Id, fetched: seq<Attempt>, i: nat, rejected: bool, refs: Refs, req: UpdateRequest)
      requires i < |fetched| && Numbered(fetched)
      requires id in attempts && attempts[id] == Partly(fetched, i, rejected, refs, req)
      modifies this`attempts
      ensures attempts == old(attempts)[id := Partly(fetched, i + 1, rejected, refs, req)]
    {
      ghost var done := RewriteAll(fetched[..i], rejected, refs, req);
      OthersDiffer(fetched, i, rejected, refs, req);
      assert attempts[id] == done + [fetched[i]] + fetched[i + 1..];
      RewriteOne(id, fetched[i], rejected, refs, req, done, fetched[i + 1..]);
    }

    /** The loop of Update over the attempts it fetched. */
    method RewriteAttempts(id: Id, fetched: seq<Attempt>, rejected: bool, refs: Refs, req: UpdateRequest)
      requires id in attempts && attempts[id] == fetched && Numbered(fetched)
      modifies this`attempts
      ensures attempts == old(attempts)[id := RewriteAll(fetched, rejected, refs, req)]
    {
      var i := 0;
      ghost var before := attempts;
      ghost var current := fetched;
      PartlyEnds(fetched, rejected, refs, req);
      assert before[id := fetched] == before;
      while i < |fetched|
        invariant i <= |fetched| && current == Partly(fetched, i, rejected, refs, req)
        invariant attempts == before[id := current]
      {
        RewriteNext(id, fetched, i, rejected, refs, req);
        WrittenAgain(before, id, current, attempts[id]);
        current := attempts[id];
        i := i + 1;
      }
    }

    /** The transaction of Update once the pooling number was found to have room. */
    method SaveUpdate(id: Id, order: Order, refs: Refs, req: UpdateRequest, drawn: Drawn)
      requires id in orders && id in attempts && Numbered(attempts[id])
      modifies this
      ensures Tables() == AfterUpdate(old(Tables()), id, order, refs, req, drawn)
    {
      var before := orders[id];
      var inMemory := SaveRows(id, order, refs, req, drawn);
      if Lower(Trim(order.status)) == "reject" && Lower(Trim(before.status)) != "reject" {
        var copied := CopyOf(order, inMemory, refs, req);
        DuplicateOrderRow(order, copied.0, copied.1, copied.2, drawn);
      }
    }

    /** Saves the row and its attempts; the attempts kept in memory are the fetched ones, unchanged, and the added one. */
    method SaveRows(id: Id, order: Order, refs: Refs, req: UpdateRequest, drawn: Drawn) returns (inMemory: seq<Attempt>)
      requires id in attempts && Numbered(attempts[id])
      modifies this
      ensures Tables() == AfterSave(old(Tables()), id, order, refs, req, drawn)
      ensures inMemory == old(attempts)[id] + AddedAttempts(old(attempts)[id], Rejected(order.status), refs, req, drawn)
    {
      var fetched := attempts[id];
      var primaryRejected := Lower(order.status) == "reject";
      orders := orders[id := order];
      RewriteAttempts(id, fetched, primaryRejected, refs, req);
      var added := SecondAttempt(fetched, primaryRejected, refs, req, drawn);
      attempts := attempts[id := attempts[id] + added];
      inMemory := fetched + added;
    }

    method SecondAttempt(fetched: seq<Attempt>, rejected: bool, refs: Refs, req: UpdateRequest, drawn: Drawn)
      returns (added: seq<Attempt>)
      ensures added == AddedAttempts(fetched, rejected, refs, req, drawn)
    {
      added := [];
      if rejected && refs.company2.Some? && !HasAttempt(fetched, 2) {
        var status2 := "";
        if req.status2.Some? { status2 := Lower(req.status2.value); }
        assert status2 == Lower(OrElse(req.status2, ""));
        added := [Attempt(drawn.attempt2, refs.company2.value, 2, status2, OrElse(req.notes2, ""), drawn.attempt2At)];
      }
    }

    method ChangeRow(env: Env, scope: Scope, id: Id, req: UpdateRequest, drawn: Drawn) returns (r: Result<Order>)
      requires Inv(Tables())
      modifies this
      ensures (Tables(), r) == Update(old(Tables()), env, scope, id, req, drawn)
    {
      var refs :- ParseRefs(req, env);
      if id !in orders || orders[id].deleted {
        return Err(NotFound);
      }
      if !scope.MayChange(orders[id], "orders:update_all") {
        return Err(NotAllowed);
      }
      r := ApplyChanges(env, orders[id], refs, req);
      if r.Ok? {
        if |LiveIds(orders, r.value.pooling) - {id}| >= 2 {
          return Err(PoolingFull);
        }
        SaveUpdate(id, r.value, refs, req, drawn);
      }
    }

    method UpdateOrder(env: Env, scope: Scope, id: Id, req: UpdateRequest, drawn: Drawn) returns (r: Result<Order>)
      requires Inv(Tables()) && NewIds(Tables(), drawn)
      modifies this
      ensures (Tables(), r) == Update(old(Tables()), env, scope, id, req, drawn)
      ensures Inv(Tables())
      ensures var full := TwoOthersLive(old(orders), id, AskedPooling(old(Tables()), id, req));
              (r.Ok? <==> Updatable(old(Tables()), env, scope, id, req) && !full)
              && (r == Err(PoolingFull) <==> Updatable(old(Tables()), env, scope, id, req) && full)
      ensures r.Err? ==> Tables() == old(Tables()) && (r.error == PoolingFull || NotUpdatable(old(Tables()), env, scope, id, req, r.error))
      ensures r.Ok? ==> id in old(orders) && UpdatedRow(env, req, old(orders)[id], r.value)
                        && UpdateLeaves(old(Tables()), Tables(), id, r.value, req, drawn)
    {
      ghost var before := Tables();
      r := ChangeRow(env, scope, id, req, drawn);
      UpdateKeepsInv(before, env, scope, id, req, drawn);
      UpdateAcceptedIff(before, env, scope, id, req, drawn);
      if r.Ok? { UpdateAcceptedLeaves(before, env, scope, id, req, drawn); }
    }

    method DeleteOrder(scope: Scope, id: Id) returns (r: Result<()>)
      requires Inv(Tables())
      modifies this
      ensures Inv(Tables())
      ensures (Tables(), r) == Delete(old(Tables()), scope, id)
      ensures r == Err(NotFound) <==> id !in old(orders) || old(orders)[id].deleted
      ensures r == Err(NotAllowed) <==>
                id in old(orders) && !old(orders)[id].deleted && !Permitted(scope, old(orders)[id], "orders:delete_all")
      ensures r.Err? ==> Tables() == old(Tables()) && (r.error == NotFound || r.error == NotAllowed)
      ensures r.Ok? ==> orders.Keys == old(orders).Keys && attempts == old(attempts) && KeepsRows(old(Tables()), Tables(), {id})
                        && id in orders && orders[id].deleted && orders[id].(deleted := false) == old(orders)[id]
    {
      DeleteEffects(Tables(), scope, id);
      DeleteKeepsInv(Tables(), scope, id);
      if id !in orders || orders[id].deleted {
        return Err(NotFound);
      }
      if !scope.MayChange(orders[id], "orders:delete_all") {
        return Err(NotAllowed);
      }
      orders := orders[id := orders[id].(deleted := true)];
      return Ok(());
    }
  }
}
