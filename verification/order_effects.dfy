/**
 What creating and deleting do, told of the request and the tables before: when they are accepted, why
 they are refused, what every field of the rows is afterwards and which rows there are.
 */
module OrderEffects {
  import opened Text
  import opened Finite
  import opened Orders
  import opened OrderRuns

  // ---------------------------------------------------------------- who may change an order

  /** The superadmin, holders of the permission, the order's creator, and those who have its dealer. */
  ghost predicate Permitted(scope: Scope, o: Order, permission: string) {
    scope.superadmin || permission in scope.permissions
    || (!Blank(scope.user) && Trim(scope.user) == Trim(o.createdBy))
    || (!Blank(o.dealer) && exists d | d in scope.dealers :: Trim(d) == Trim(o.dealer))
  }

  lemma MayChangeIff(scope: Scope, o: Order, permission: string)
    ensures scope.MayChange(o, permission) <==> Permitted(scope, o, permission)
  {
  }

  // ---------------------------------------------------------------- room on a pooling number

  ghost predicate IsLiveOn(orders: map<Id, Order>, id: Id, pooling: string) {
    id in orders && !orders[id].deleted && orders[id].pooling == pooling
  }

  /** Two different live orders have this pooling number. */
  ghost predicate TwoLive(orders: map<Id, Order>, pooling: string) {
    exists a, b | a != b :: IsLiveOn(orders, a, pooling) && IsLiveOn(orders, b, pooling)
  }

  /** Two different live orders other than this one have it. */
  ghost predicate TwoOthersLive(orders: map<Id, Order>, id: Id, pooling: string) {
    exists a, b | a != b && a != id && b != id :: IsLiveOn(orders, a, pooling) && IsLiveOn(orders, b, pooling)
  }

  lemma PairFits<T>(a: T, b: T, s: set<T>)
    requires a in s && b in s && a != b
    ensures |s| >= 2
  {
    assert |{a, b}| == 2;
    SubsetSize({a, b}, s);
  }

  lemma TwoMembers<T>(s: set<T>)
    ensures |s| >= 2 <==> exists a, b | a in s && b in s :: a != b
  {
    if |s| >= 2 {
      var a :| a in s;
      assert |s - {a}| >= 1;
      var b :| b in s - {a};
      assert b in s && a != b;
    }
    if a, b :| a in s && b in s && a != b {
      PairFits(a, b, s);
    }
  }

  lemma FullIff(orders: map<Id, Order>, pooling: string)
    ensures |LiveIds(orders, pooling)| >= 2 <==> TwoLive(orders, pooling)
  {
    TwoMembers(LiveIds(orders, pooling));
    if a, b :| a != b && IsLiveOn(orders, a, pooling) && IsLiveOn(orders, b, pooling) {
      assert a in LiveIds(orders, pooling) && b in LiveIds(orders, pooling);
    }
    if a, b :| a in LiveIds(orders, pooling) && b in LiveIds(orders, pooling) && a != b {
      assert IsLiveOn(orders, a, pooling) && IsLiveOn(orders, b, pooling);
    }
  }

  lemma FullOfOthersIff(orders: map<Id, Order>, id: Id, pooling: string)
    ensures |LiveIds(orders, pooling) - {id}| >= 2 <==> TwoOthersLive(orders, id, pooling)
  {
    var others := LiveIds(orders, pooling) - {id};
    TwoMembers(others);
    if a, b :| a != b && a != id && b != id && IsLiveOn(orders, a, pooling) && IsLiveOn(orders, b, pooling) {
      assert a in others && b in others;
    }
    if a, b :| a in others && b in others && a != b {
      assert IsLiveOn(orders, a, pooling) && IsLiveOn(orders, b, pooling);
    }
  }

  /** A live order of this pooling number alone leaves room for its copy. */
  lemma RoomForCopyIff(orders: map<Id, Order>, id: Id, pooling: string)
    requires IsLiveOn(orders, id, pooling)
    ensures |LiveIds(orders, pooling)| >= 2 <==> exists k | k != id :: IsLiveOn(orders, k, pooling)
  {
    FullIff(orders, pooling);
  }

  // ---------------------------------------------------------------- motor and dealer

  /** Both name a province, or both a regency, and not the same. */
  predicate AreaClash(m: Motor, d: Dealer) {
    (!Blank(m.province) && !Blank(d.province) && Trim(m.province) != Trim(d.province))
    || (!Blank(m.regency) && !Blank(d.regency) && Trim(m.regency) != Trim(d.regency))
  }

  lemma AllowedIff(m: Motor, d: Dealer)
    ensures AreaAllowed(m, d.province, d.regency) <==> !AreaClash(m, d)
  {
  }

  // ---------------------------------------------------------------- create

  /** The dealer of the request, or else the default one. */
  predicate DealerMeant(env: Env, req: CreateRequest, dealer: string) {
    if Blank(req.dealer) then dealer == Trim(env.defaultDealer) else dealer == Trim(req.dealer)
  }

  ghost predicate Creatable(env: Env, req: CreateRequest) {
    req.poolingAt.At? && req.resultAt != Malformed && req.motor in env.motors && req.installment >= 0.0 && !Blank(req.province)
    && exists dealer | dealer in env.dealers ::
         dealer != "" && DealerMeant(env, req, dealer) && !AreaClash(env.motors[req.motor], env.dealers[dealer])
  }

  /** A reason that holds for not building a row. */
  predicate NotCreatable(env: Env, req: CreateRequest, e: Error) {
    match e
    case BadTime => !req.poolingAt.At? || req.resultAt == Malformed
    case DealerRequired => Blank(req.dealer) && Blank(env.defaultDealer)
    case DealerNotFound => (if Blank(req.dealer) then Trim(env.defaultDealer) else Trim(req.dealer)) !in env.dealers
    case MotorNotFound => req.motor !in env.motors
    case AreaMismatch =>
      req.motor in env.motors && exists dealer | dealer in env.dealers ::
        DealerMeant(env, req, dealer) && AreaClash(env.motors[req.motor], env.dealers[dealer])
    case NegativeInstallment => req.installment < 0.0
    case ProvinceRequired => Blank(req.province)
    case _ => false
  }

  /** Every field of the row: as requested, or as catalogue, clock and caller give it. */
  predicate CreatedRow(env: Env, scope: Scope, req: CreateRequest, now: int, o: Order) {
    o.pooling == req.pooling && req.poolingAt == At(o.poolingAt)
    && o.resultAt == (if req.resultAt.At? then Some(req.resultAt.t) else None)
    && DealerMeant(env, req, o.dealer) && o.consumerName == req.consumerName && o.consumerPhone == req.consumerPhone
    && o.province == Trim(req.province) && o.regency == req.regency && o.district == req.district && o.village == req.village
    && o.address == req.address && o.job == req.job && o.motor == req.motor
    && o.installment == req.installment && o.dpGross == req.dpGross && o.dpPaid == req.dpPaid && o.tenor == req.tenor
    && req.motor in env.motors && o.otr == env.motors[req.motor].otr
    && (if o.otr > 0.0 then o.dpPct * o.otr == o.dpPaid * 100.0 else o.dpPct == 0.0)
    && o.status == Lower(req.status) && o.notes == req.notes
    && o.createdBy == scope.user && o.createdAt == now && !o.deleted
  }

  lemma PercentOf(paid: real, otr: real)
    requires otr > 0.0
    ensures Percent(paid, otr) * otr == paid * 100.0
  {
    var q := paid / otr;
    assert q * otr == paid;
    assert q * 100.0 * otr == q * otr * 100.0;
  }

  lemma NewOrderIff(env: Env, scope: Scope, req: CreateRequest, now: int)
    ensures NewOrder(env, scope, req, now).Ok? <==> Creatable(env, req)
    ensures NewOrder(env, scope, req, now).Err? ==> NotCreatable(env, req, NewOrder(env, scope, req, now).error)
  {
    var dealer := if Blank(req.dealer) then Trim(env.defaultDealer) else Trim(req.dealer);
    assert DealerMeant(env, req, dealer);
    if req.motor in env.motors && dealer in env.dealers { AllowedIff(env.motors[req.motor], env.dealers[dealer]); }
  }

  lemma NewOrderRow(env: Env, scope: Scope, req: CreateRequest, now: int, o: Order)
    requires NewOrder(env, scope, req, now) == Ok(o)
    ensures CreatedRow(env, scope, req, now, o)
  {
    if o.otr > 0.0 { PercentOf(o.dpPaid, o.otr); }
  }

  /** The first attempt of a new order, and a second one for a rejection that names company and status. */
  predicate FirstOnes(atts: seq<Attempt>, req: CreateRequest, drawn: Drawn) {
    |atts| == (if Lower(req.status) == "reject" && req.company2 != "" && req.status2 != "" then 2 else 1)
    && atts[0] == Attempt(drawn.attempt1, req.company, 1, Lower(req.status), req.notes, drawn.attempt1At)
    && (|atts| == 2 ==> atts[1] == Attempt(drawn.attempt2, req.company2, 2, Lower(req.status2), req.notes2, drawn.attempt2At))
  }

  /** A copy has the fields of its order, but its own status, notes and creation. */
  predicate IsCopy(copy: Order, o: Order, status: string, notes: string, at: int) {
    copy.(status := o.status, notes := o.notes, createdAt := o.createdAt, deleted := o.deleted) == o
    && copy.status == status && copy.notes == notes && copy.createdAt == at && !copy.deleted
  }

  /** Its one attempt, if a company is named. */
  predicate CopyAttempts(atts: seq<Attempt>, company: string, status: string, notes: string, drawn: Drawn) {
    if Blank(company) then atts == []
    else atts == [Attempt(drawn.cloneAttempt, Trim(company), 1, status, notes, drawn.cloneAttemptAt)]
  }

  /** A rejected order whose pooling number nobody else has is copied. */
  ghost predicate CreateCopies(db: Db, req: CreateRequest) {
    Lower(Trim(req.status)) == "reject" && forall k :: !IsLiveOn(db.orders, k, req.pooling)
  }

  function CreateCopyStatus(req: CreateRequest): string {
    if Blank(req.status2) then "reject" else Lower(Trim(req.status2))
  }

  function CreateCopyNotes(req: CreateRequest): string {
    if Blank(req.notes2) then Trim(req.notes) else Trim(req.notes2)
  }

  /** All rows of before, unchanged, in what is there now. */
  ghost predicate KeepsRows(db: Db, db': Db, but: set<Id>) {
    forall k | k in db.orders && k !in but ::
      k in db'.orders && db'.orders[k] == db.orders[k] && k in db.attempts && k in db'.attempts && db'.attempts[k] == db.attempts[k]
  }

  /** The tables after an accepted create: the row, its attempts, the copy if there is one, and all older rows. */
  ghost predicate CreateLeaves(db: Db, db': Db, o: Order, req: CreateRequest, drawn: Drawn) {
    db'.orders.Keys == db.orders.Keys + {drawn.order} + (if CreateCopies(db, req) then {drawn.clone} else {})
    && db'.attempts.Keys == db'.orders.Keys
    && KeepsRows(db, db', {})
    && db'.orders[drawn.order] == o && FirstOnes(db'.attempts[drawn.order], req, drawn)
    && (CreateCopies(db, req) ==>
          IsCopy(db'.orders[drawn.clone], o, CreateCopyStatus(req), CreateCopyNotes(req), drawn.cloneAt)
          && CopyAttempts(db'.attempts[drawn.clone], req.company2, CreateCopyStatus(req), CreateCopyNotes(req), drawn))
  }

  lemma TrimmedStatus(status: string)
    ensures Lower(Trim(Lower(status))) == Lower(Trim(status)) && Lower(Lower(Trim(status))) == Lower(Trim(status))
    ensures Trim(Lower(Trim(status))) == Lower(Trim(status))
  {
    TrimLowerCommute(status);
    LowerIdempotent(Trim(status));
    TrimLowerCommute(Trim(status));
    TrimIdempotent(status);
  }

  /** What the copy of a rejecting create is made of. */
  lemma CreateCopyOf(o: Order, req: CreateRequest)
    requires o.status == Lower(req.status) && o.notes == req.notes && TrimRejected(o.status)
    ensures var (s, n) := CloneResult(o.status, o.notes, req.status2, req.notes2);
            CloneStatus(o, s) == CreateCopyStatus(req) && Trim(n) == CreateCopyNotes(req)
  {
    TrimmedStatus(req.status);
    TrimmedStatus(o.status);
    TrimmedStatus(req.status2);
    TrimmedStatus(Lower(Trim(req.status2)));
    TrimmedStatus(Lower(Trim(o.status)));
    TrimIdempotent(req.notes);
    TrimIdempotent(req.notes2);
    var s := CloneResult(o.status, o.notes, req.status2, req.notes2).0;
    assert s == CreateCopyStatus(req);
    if !Blank(req.status2) { assert |Lower(Trim(req.status2))| == |Trim(req.status2)|; }
  }

  lemma OnlyNewIsLive(db: Db, o: Order, drawn: Drawn)
    requires drawn.order !in db.orders && !o.deleted
    ensures |LiveIds(db.orders[drawn.order := o], o.pooling)| >= 2 <==> exists k :: IsLiveOn(db.orders, k, o.pooling)
  {
    var orders' := db.orders[drawn.order := o];
    RoomForCopyIff(orders', drawn.order, o.pooling);
    if k :| IsLiveOn(db.orders, k, o.pooling) { assert k != drawn.order && IsLiveOn(orders', k, o.pooling); }
    if k :| k != drawn.order && IsLiveOn(orders', k, o.pooling) { assert IsLiveOn(db.orders, k, o.pooling); }
  }

  lemma CreatedTables(db: Db, env: Env, scope: Scope, o: Order, req: CreateRequest, drawn: Drawn)
    requires db.orders.Keys == db.attempts.Keys && NewIds(db, drawn) && CreatedRow(env, scope, req, drawn.orderAt, o)
    ensures CreateLeaves(db, AfterCreate(db, o, req, drawn), o, req, drawn)
  {
    TrimmedStatus(req.status);
    OnlyNewIsLive(db, o, drawn);
    assert FirstOnes(FirstAttempts(req, drawn), req, drawn);
    if CreateCopies(db, req) {
      CreateCopyOf(o, req);
      CopiedTables(db, o, req, drawn);
    } else {
      PlainTables(db, o, req, drawn);
    }
  }

  lemma PlainTables(db: Db, o: Order, req: CreateRequest, drawn: Drawn)
    requires db.orders.Keys == db.attempts.Keys && NewIds(db, drawn) && !CreateCopies(db, req)
    requires AfterCreate(db, o, req, drawn) == Db(db.orders[drawn.order := o], db.attempts[drawn.order := FirstAttempts(req, drawn)])
    requires FirstOnes(FirstAttempts(req, drawn), req, drawn)
    ensures CreateLeaves(db, AfterCreate(db, o, req, drawn), o, req, drawn)
  {
    assert db.orders.Keys + {drawn.order} + {} == db.orders.Keys + {drawn.order};
  }

  /** Two rows written anew, and all others as they were. */
  lemma TwoWritten(db: Db, a: Id, x: Order, p: seq<Attempt>, b: Id, y: Order, q: seq<Attempt>, db': Db)
    requires db.orders.Keys == db.attempts.Keys && a !in db.orders && b !in db.orders && a != b
    requires db' == Db(db.orders[a := x][b := y], db.attempts[a := p][b := q])
    ensures db'.orders.Keys == db.orders.Keys + {a} + {b} == db'.attempts.Keys
    ensures KeepsRows(db, db', {})
    ensures db'.orders[a] == x && db'.attempts[a] == p && db'.orders[b] == y && db'.attempts[b] == q
  {
  }

  lemma CopyIs(o: Order, status: string, notes: string, at: int)
    ensures IsCopy(Copy(o, status, notes, at), o, status, Trim(notes), at)
  {
  }

  lemma CopyAttemptsAre(status: string, notes: string, company: string, drawn: Drawn)
    ensures CopyAttempts(CloneAttempts(status, notes, company, drawn), company, status, Trim(notes), drawn)
  {
  }

  lemma CopiedTables(db: Db, o: Order, req: CreateRequest, drawn: Drawn)
    requires db.orders.Keys == db.attempts.Keys && NewIds(db, drawn) && CreateCopies(db, req)
    requires TrimRejected(o.status) && |LiveIds(db.orders[drawn.order := o], o.pooling)| < 2
    requires FirstOnes(FirstAttempts(req, drawn), req, drawn)
    requires var (s, n) := CloneResult(o.status, o.notes, req.status2, req.notes2);
             CloneStatus(o, s) == CreateCopyStatus(req) && Trim(n) == CreateCopyNotes(req)
    ensures CreateLeaves(db, AfterCreate(db, o, req, drawn), o, req, drawn)
  {
    var n := CloneResult(o.status, o.notes, req.status2, req.notes2).1;
    CopyIs(o, CreateCopyStatus(req), n, drawn.cloneAt);
    CopyAttemptsAre(CreateCopyStatus(req), n, req.company2, drawn);
    TwoWritten(db, drawn.order, o, FirstAttempts(req, drawn), drawn.clone, Copy(o, CreateCopyStatus(req), n, drawn.cloneAt),
               CloneAttempts(CreateCopyStatus(req), n, req.company2, drawn), AfterCreate(db, o, req, drawn));
  }

  /** When a create is accepted, refused for want of room, or refused before that, and what it leaves. */
  lemma CreateEffects(db: Db, env: Env, scope: Scope, req: CreateRequest, drawn: Drawn)
    requires db.orders.Keys == db.attempts.Keys && NewIds(db, drawn)
    ensures var (db', r) := Create(db, env, scope, req, drawn);
            (r.Ok? <==> Creatable(env, req) && !TwoLive(db.orders, req.pooling))
            && (r == Err(PoolingFull) <==> Creatable(env, req) && TwoLive(db.orders, req.pooling))
            && (r.Err? ==> db' == db && (r.error == PoolingFull || NotCreatable(env, req, r.error)))
            && (r.Ok? ==> CreatedRow(env, scope, req, drawn.orderAt, r.value) && CreateLeaves(db, db', r.value, req, drawn))
  {
    FullIff(db.orders, req.pooling);
    NewOrderIff(env, scope, req, drawn.orderAt);
    var built := NewOrder(env, scope, req, drawn.orderAt);
    if built.Ok? {
      NewOrderRow(env, scope, req, drawn.orderAt, built.value);
      CreatedTables(db, env, scope, built.value, req, drawn);
    }
  }

  // ---------------------------------------------------------------- delete

  /** One live row is marked, for callers who may; all else stays. */
  lemma DeleteEffects(db: Db, scope: Scope, id: Id)
    requires db.orders.Keys == db.attempts.Keys
    ensures var (db', r) := Delete(db, scope, id);
            (r == Err(NotFound) <==> id !in db.orders || db.orders[id].deleted)
            && (r == Err(NotAllowed) <==> id in db.orders && !db.orders[id].deleted && !Permitted(scope, db.orders[id], "orders:delete_all"))
            && (r.Err? ==> db' == db && (r.error == NotFound || r.error == NotAllowed))
            && (r.Ok? ==> db'.orders.Keys == db.orders.Keys && db'.attempts == db.attempts && KeepsRows(db, db', {id})
                          && id in db.orders && db'.orders[id].deleted && db'.orders[id].(deleted := false) == db.orders[id])
  {
    if id in db.orders { MayChangeIff(scope, db.orders[id], "orders:delete_all"); }
  }
}
