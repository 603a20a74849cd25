/** What the migration report makes of an order that an update newly rejects. */
module UpdateReport {
  import opened Text
  import opened Orders
  import opened OrderRuns
  import opened OrderIdempotence
  import opened MigrationReport

  /** The order was created before its copy, or with it under a smaller identifier. */
  predicate BeforeCopy(o: Order, id: Id, drawn: Drawn) {
    o.createdAt < drawn.cloneAt || (o.createdAt == drawn.cloneAt && id < drawn.clone)
  }

  /** The attempts that an update leaves. */
  function Settled(atts: seq<Attempt>, o: Order, refs: Refs, req: UpdateRequest, drawn: Drawn): seq<Attempt> {
    RewriteAll(atts, Rejected(o.status), refs, req) + AddedAttempts(atts, Rejected(o.status), refs, req, drawn)
  }

  lemma FromSettled(atts: seq<Attempt>, o: Order, refs: Refs, req: UpdateRequest, drawn: Drawn, x: Attempt)
    requires x in Settled(atts, o, refs, req, drawn)
    ensures x.no == 1 ==> HasAttempt(atts, 1)
    ensures x.no == 2 ==> Rejected(o.status) && (refs.company2.Some? ==> x.company == refs.company2.value)
  {
    RewriteSource(atts, Rejected(o.status), refs, req);
    if x in RewriteAll(atts, Rejected(o.status), refs, req) {
      var a :| a in atts && Rewrite(a, Rejected(o.status), refs, req) == Some(x);
    }
  }

  lemma FirstSettled(atts: seq<Attempt>, o: Order, refs: Refs, req: UpdateRequest, drawn: Drawn)
    ensures HasAttempt(Settled(atts, o, refs, req, drawn), 1) <==> HasAttempt(atts, 1)
  {
    var settled := Settled(atts, o, refs, req, drawn);
    if HasAttempt(atts, 1) {
      var i :| 0 <= i < |atts| && atts[i].no == 1;
      RewriteTarget(atts, atts[i], Rejected(o.status), refs, req);
      var x := Rewrite(atts[i], Rejected(o.status), refs, req).value;
      assert x in settled;
      var j :| 0 <= j < |settled| && settled[j] == x;
    }
    if HasAttempt(settled, 1) {
      var j :| 0 <= j < |settled| && settled[j].no == 1;
      FromSettled(atts, o, refs, req, drawn, settled[j]);
    }
  }

  /** What the report reads in them: the order's own status first, and the company asked for second. */
  lemma SettledReads(atts: seq<Attempt>, o: Order, refs: Refs, req: UpdateRequest, drawn: Drawn)
    requires InStep(o, Settled(atts, o, refs, req, drawn)) && refs.company2.Some?
    ensures var settled := Settled(atts, o, refs, req, drawn);
            (Latest(settled, 1).Some? <==> HasAttempt(atts, 1)) && (Latest(settled, 1).Some? ==> Latest(settled, 1).value.status == o.status)
            && (Rejected(o.status) ==> Latest(settled, 2).Some? && Latest(settled, 2).value.company == refs.company2.value)
  {
    var settled := Settled(atts, o, refs, req, drawn);
    FirstSettled(atts, o, refs, req, drawn);
    if Latest(settled, 1).Some? {
      var i :| 0 <= i < |settled| && settled[i] == Latest(settled, 1).value;
    }
    if Rejected(o.status) {
      SecondThere(atts, true, refs, req, drawn);
      FromSettled(atts, o, refs, req, drawn, Latest(settled, 2).value);
    }
  }

  // ---------------------------------------------------------------- the tables after the update

  /** Status and notes of the copy. */
  function CopyAs(db: Db, id: Id, o: Order, refs: Refs, req: UpdateRequest, drawn: Drawn): (string, string)
    requires id in db.attempts
  {
    var (s, n, _) := CopyOf(o, db.attempts[id] + AddedAttempts(db.attempts[id], Rejected(o.status), refs, req, drawn), refs, req);
    (CloneStatus(o, s), n)
  }

  function PairAfter(db: Db, id: Id, o: Order, refs: Refs, req: UpdateRequest, drawn: Drawn): Db
    requires id in db.attempts && refs.company2.Some?
  {
    var (status, notes) := CopyAs(db, id, o, refs, req, drawn);
    Db(db.orders[id := o][drawn.clone := Copy(o, status, notes, drawn.cloneAt)],
       db.attempts[id := Settled(db.attempts[id], o, refs, req, drawn)]
         [drawn.clone := CloneAttempts(status, notes, refs.company2.value, drawn)])
  }

  /** The update rejects an order that alone is live under its pooling number, and names a second company. */
  ghost predicate NewlyRejects(db: Db, id: Id, o: Order, refs: Refs, drawn: Drawn) {
    id in db.orders && id in db.attempts && NewIds(db, drawn) && !o.deleted && LiveIds(db.orders, o.pooling) - {id} == {}
    && TrimRejected(o.status) && !TrimRejected(db.orders[id].status) && refs.company2.Some? && !Blank(refs.company2.value)
  }

  lemma AloneAfterSave(db: Db, id: Id, o: Order)
    requires id in db.orders && !o.deleted && LiveIds(db.orders, o.pooling) - {id} == {}
    ensures LiveIds(db.orders[id := o], o.pooling) == {id}
  {
    LiveAfterWrite(db.orders, id, o, o.pooling);
    assert LiveIds(db.orders, o.pooling) + {id} == {id};
  }

  lemma PairWritten(db: Db, id: Id, o: Order, refs: Refs, req: UpdateRequest, drawn: Drawn)
    requires NewlyRejects(db, id, o, refs, drawn)
    ensures AfterUpdate(db, id, o, refs, req, drawn) == PairAfter(db, id, o, refs, req, drawn)
    ensures LiveIds(PairAfter(db, id, o, refs, req, drawn).orders, o.pooling) == {id, drawn.clone}
  {
    AloneAfterSave(db, id, o);
    var (status, notes) := CopyAs(db, id, o, refs, req, drawn);
    LiveAfterWrite(db.orders[id := o], drawn.clone, Copy(o, status, notes, drawn.cloneAt), o.pooling);
  }

  lemma CopyReads(status: string, notes: string, company: string, drawn: Drawn)
    requires !Blank(company) && Lower(status) == status
    ensures var atts := CloneAttempts(status, notes, company, drawn);
            !HasAttempt(atts, 2) && Latest(atts, 1).Some? && Latest(atts, 1).value.status == status
  {
    var atts := CloneAttempts(status, notes, company, drawn);
    assert atts == [atts[0]] && atts[0].no == 1;
  }

  lemma CopyStatusLower(o: Order, status: string)
    ensures Lower(CloneStatus(o, status)) == CloneStatus(o, status)
  {
    LowerIdempotent(Trim(status));
    LowerIdempotent(Trim(o.status));
  }

  /** The report on the two rows. */
  lemma PairRead(db: Db, id: Id, o: Order, refs: Refs, req: UpdateRequest, drawn: Drawn, db1: Db)
    requires NewlyRejects(db, id, o, refs, drawn) && db.orders.Keys == db.attempts.Keys && drawn.clone != id
    requires db1 == PairAfter(db, id, o, refs, req, drawn) && LiveIds(db1.orders, o.pooling) == {id, drawn.clone}
    requires InStep(o, Settled(db.attempts[id], o, refs, req, drawn))
    ensures BeforeCopy(o, id, drawn) ==>
              ListedFor(db1, o.pooling, o.dealer) == if Rejected(o.status) && HasAttempt(db.attempts[id], 1) then {id} else {}
    ensures BeforeCopy(o, id, drawn) && Rejected(o.status) ==>
              Finance2(db1, id).Some? && Finance2(db1, id).value.company == refs.company2.value
    ensures !BeforeCopy(o, id, drawn) ==> id !in ListedFor(db1, o.pooling, o.dealer)
  {
    var (status, notes) := CopyAs(db, id, o, refs, req, drawn);
    SettledReads(db.attempts[id], o, refs, req, drawn);
    var (s, _, _) := CopyOf(o, db.attempts[id] + AddedAttempts(db.attempts[id], Rejected(o.status), refs, req, drawn), refs, req);
    CopyStatusLower(o, s);
    CopyReads(status, notes, refs.company2.value, drawn);
    if BeforeCopy(o, id, drawn) {
      PairReport(db1, id, drawn.clone, o.pooling, o.dealer);
    } else {
      PairReport(db1, drawn.clone, id, o.pooling, o.dealer);
    }
  }

  /**
   When an update newly rejects the only live order of its pooling number and names a second company,
   the report lists that order, with that company, exactly when the status is "reject" without blanks
   around it, the order has a first attempt, and it was created before its copy.
   */
  lemma RejectedUpdateIsReported(db: Db, env: Env, id: Id, refs: Refs, o: Order, req: UpdateRequest, drawn: Drawn)
    requires Inv(db) && NewlyRejects(db, id, o, refs, drawn) && ChangedOrder(env, db.orders[id], refs, req) == Ok(o)
    ensures var db1 := AfterUpdate(db, id, o, refs, req, drawn);
            db1.orders.Keys == db1.attempts.Keys && id in db1.orders
            && (ListedFor(db1, o.pooling, o.dealer) == {id}
                <==> Rejected(o.status) && HasAttempt(db.attempts[id], 1) && BeforeCopy(o, id, drawn))
            && (ListedFor(db1, o.pooling, o.dealer) == {id} ==>
                  Finance2(db1, id).Some? && Finance2(db1, id).value.company == refs.company2.value)
  {
    ChangedOrderFacts(env, db.orders[id], refs, req, o);
    UpdatedInStep(db.attempts[id], db.orders[id], o, refs, req, drawn);
    PairWritten(db, id, o, refs, req, drawn);
    PairRead(db, id, o, refs, req, drawn, AfterUpdate(db, id, o, refs, req, drawn));
  }

  /** The same of a request, as the service receives it. */
  lemma RejectingRequestIsReported(db: Db, env: Env, scope: Scope, id: Id, req: UpdateRequest, refs: Refs, o: Order, drawn: Drawn)
    requires Inv(db) && Requested(db, env, scope, id, req) == Ok((refs, o)) && NewlyRejects(db, id, o, refs, drawn)
    ensures var (db1, r) := Update(db, env, scope, id, req, drawn);
            r == Ok(o) && db1.orders.Keys == db1.attempts.Keys
            && (ListedFor(db1, o.pooling, o.dealer) == {id}
                <==> Rejected(o.status) && HasAttempt(db.attempts[id], 1) && BeforeCopy(o, id, drawn))
  {
    RequestedFacts(db, env, scope, id, req, refs, o);
    RejectedUpdateIsReported(db, env, id, refs, o, req, drawn);
  }
}
