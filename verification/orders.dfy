/**
 The order table and its finance attempts: what Create, Update and Delete of the order
 service leave behind, and what stays true over every run of them.
 */
module Orders {
  import opened Text

  type Id = nat

  /** Instants are counted from Go's zero time. */
  const ZERO_TIME: int := 0

  // ---------------------------------------------------------------- rows

  datatype Order = Order(
    pooling: string, poolingAt: int, resultAt: Option<int>, dealer: string,
    consumerName: string, consumerPhone: string, province: string, regency: string,
    district: string, village: string, address: string, job: string, motor: string,
    installment: real, otr: real, dpGross: real, dpPaid: real, dpPct: real, tenor: int,
    status: string, notes: string, createdBy: string, createdAt: int, deleted: bool)

  datatype Attempt = Attempt(id: Id, company: string, no: int, status: string, notes: string, createdAt: int)

  /** The two tables; attempts are indexed by the order they belong to. */
  datatype Db = Db(orders: map<Id, Order>, attempts: map<Id, seq<Attempt>>)

  // ---------------------------------------------------------------- surroundings

  datatype Motor = Motor(otr: real, province: string, regency: string)

  datatype Dealer = Dealer(province: string, regency: string)

  /** Reference tables, the default dealer of the process, and uuid.Parse. */
  datatype Env = Env(motors: map<string, Motor>, dealers: map<string, Dealer>, defaultDealer: string,
                     isUuid: string -> bool)

  datatype Scope = Scope(superadmin: bool, user: string, permissions: set<string>, dealers: seq<string>) {

    predicate Has(permission: string) {
      superadmin || permission in permissions
    }

    predicate CanAccessOwner(owner: string) {
      superadmin || (!Blank(user) && Trim(user) == Trim(owner))
    }

    predicate CanAccessDealer(dealer: string) {
      superadmin || (!Blank(dealer) && exists d | d in dealers :: Trim(d) == Trim(dealer))
    }

    predicate MayChange(o: Order, permission: string) {
      Has(permission) || CanAccessOwner(o.createdBy) || CanAccessDealer(o.dealer)
    }
  }

  /** Identifiers and clock readings drawn while a request runs. */
  datatype Drawn = Drawn(order: Id, clone: Id, attempt1: Id, attempt2: Id, cloneAttempt: Id,
                         orderAt: int, attempt1At: int, attempt2At: int, cloneAt: int, cloneAttemptAt: int)

  datatype Error =
    | BadTime | BadId | EmptyId | NotFound | NotAllowed
    | DealerRequired | DealerNotFound | MotorNotFound | AreaMismatch
    | NegativeInstallment | ProvinceRequired | PoolingFull

  datatype Result<+T> = Ok(value: T) | Err(error: Error) {

    predicate IsFailure() {
      Err?
    }

    function PropagateFailure<U>(): Result<U>
      requires Err?
    {
      Err(error)
    }

    function Extract(): T
      requires Ok?
    {
      value
    }
  }

  function Check(ok: bool, e: Error): Result<()> {
    if ok then Ok(()) else Err(e)
  }

  // ---------------------------------------------------------------- requests

  /** A time in a request: missing, blank, not RFC 3339, or an instant. */
  datatype TimeField = Absent | BlankTime | Malformed | At(t: int)

  function ParseTime(f: TimeField): Result<int> {
    match f
    case At(t) => Ok(t)
    case Malformed => Err(BadTime)
    case _ => Ok(ZERO_TIME)
  }

  datatype CreateRequest = CreateRequest(
    pooling: string, poolingAt: TimeField, resultAt: TimeField, dealer: string, company: string,
    consumerName: string, consumerPhone: string, province: string, regency: string,
    district: string, village: string, address: string, job: string, motor: string,
    installment: real, dpGross: real, dpPaid: real, tenor: int,
    status: string, notes: string, company2: string, status2: string, notes2: string)

  datatype UpdateRequest = UpdateRequest(
    pooling: Option<string>, poolingAt: TimeField, resultAt: TimeField, dealer: Option<string>,
    company: Option<string>, consumerName: Option<string>, consumerPhone: Option<string>,
    province: Option<string>, regency: Option<string>, district: Option<string>,
    village: Option<string>, address: Option<string>, job: Option<string>, motor: Option<string>,
    installment: Option<real>, dpGross: Option<real>, dpPaid: Option<real>, tenor: Option<int>,
    status: Option<string>, notes: Option<string>,
    company2: Option<string>, status2: Option<string>, notes2: Option<string>)

  /** The identifiers of an update request after trimming and validation. */
  datatype Refs = Refs(dealer: Option<string>, company: Option<string>, job: Option<string>,
                       motor: Option<string>, company2: Option<string>)

  function OrElse<T>(o: Option<T>, d: T): T {
    if o.Some? then o.value else d
  }

  function OptionalUuid(raw: Option<string>, env: Env): Result<Option<string>> {
    if raw.None? || Blank(raw.value) then Ok(None)
    else if env.isUuid(Trim(raw.value)) then Ok(Some(Trim(raw.value)))
    else Err(BadId)
  }

  function ParseRefs(req: UpdateRequest, env: Env): Result<Refs> {
    var dealer :- OptionalUuid(req.dealer, env);
    var _ :- Check(req.dealer.None? || dealer.Some?, EmptyId);
    var company :- OptionalUuid(req.company, env);
    var _ :- Check(req.company.None? || company.Some?, EmptyId);
    var job :- OptionalUuid(req.job, env);
    var motor :- OptionalUuid(req.motor, env);
    var company2 :- OptionalUuid(req.company2, env);
    Ok(Refs(dealer, company, job, motor, company2))
  }

  predicate AreaAllowed(m: Motor, province: string, regency: string) {
    (Blank(m.province) || Blank(province) || Trim(m.province) == Trim(province))
    && (Blank(m.regency) || Blank(regency) || Trim(m.regency) == Trim(regency))
  }

  function Percent(paid: real, otr: real): real
    requires otr > 0.0
  {
    paid / otr * 100.0
  }

  // ---------------------------------------------------------------- what a request asks for

  /** The row that Create inserts, or the reason it refuses before touching the tables. */
  function NewOrder(env: Env, scope: Scope, req: CreateRequest, now: int): Result<Order> {
    var _ :- Check(req.poolingAt.At?, BadTime);
    var resultTime :- ParseTime(req.resultAt);
    var dealer := if Blank(req.dealer) then Trim(env.defaultDealer) else Trim(req.dealer);
    var _ :- Check(dealer != "", DealerRequired);
    var _ :- Check(dealer in env.dealers, DealerNotFound);
    var _ :- Check(req.motor in env.motors, MotorNotFound);
    var m, d := env.motors[req.motor], env.dealers[dealer];
    var _ :- Check(AreaAllowed(m, d.province, d.regency), AreaMismatch);
    var _ :- Check(req.installment >= 0.0, NegativeInstallment);
    var _ :- Check(!Blank(req.province), ProvinceRequired);
    Ok(Order(req.pooling, req.poolingAt.t, if req.resultAt.At? then Some(resultTime) else None, dealer,
             req.consumerName, req.consumerPhone, Trim(req.province), req.regency,
             req.district, req.village, req.address, req.job, req.motor,
             req.installment, m.otr, req.dpGross, req.dpPaid,
             if m.otr > 0.0 then Percent(req.dpPaid, m.otr) else 0.0, req.tenor,
             Lower(req.status), req.notes, scope.user, now, false))
  }

  /** The fields that a request overwrites without any further check. */
  function WithPlainFields(o: Order, refs: Refs, req: UpdateRequest): Order {
    o.(pooling := OrElse(req.pooling, o.pooling),
       dealer := OrElse(refs.dealer, o.dealer),
       consumerName := OrElse(req.consumerName, o.consumerName),
       consumerPhone := OrElse(req.consumerPhone, o.consumerPhone),
       regency := OrElse(req.regency, o.regency),
       district := OrElse(req.district, o.district),
       village := OrElse(req.village, o.village),
       address := OrElse(req.address, o.address),
       job := OrElse(refs.job, o.job),
       dpGross := OrElse(req.dpGross, o.dpGross),
       tenor := OrElse(req.tenor, o.tenor),
       status := if req.status.Some? then Lower(req.status.value) else o.status,
       notes := OrElse(req.notes, o.notes))
  }

  function WithTimes(o: Order, req: UpdateRequest): Result<Order> {
    var poolingTime :- ParseTime(req.poolingAt);
    var resultTime :- ParseTime(req.resultAt);
    Ok(o.(poolingAt := if poolingTime != ZERO_TIME then poolingTime else o.poolingAt,
          resultAt := if req.resultAt.Absent? then o.resultAt
                      else if resultTime != ZERO_TIME then Some(resultTime) else None))
  }

  function WithProvince(o: Order, req: UpdateRequest): Result<Order> {
    if req.province.None? then Ok(o)
    else if Blank(req.province.value) then Err(ProvinceRequired)
    else Ok(o.(province := Trim(req.province.value)))
  }

  /** Motor, price and down payment, with the percentage computed from the price known so far. */
  function WithPayment(env: Env, o: Order, refs: Refs, req: UpdateRequest): Result<Order> {
    var _ :- Check(refs.motor.None? || refs.motor.value in env.motors, MotorNotFound);
    var _ :- Check(req.installment.None? || req.installment.value >= 0.0, NegativeInstallment);
    var otr := if refs.motor.Some? then env.motors[refs.motor.value].otr else o.otr;
    var paid := OrElse(req.dpPaid, o.dpPaid);
    Ok(o.(motor := OrElse(refs.motor, o.motor), otr := otr, dpPaid := paid,
          installment := OrElse(req.installment, o.installment),
          dpPct := if otr > 0.0 then Percent(paid, otr) else o.dpPct))
  }

  /** The catalogue must know motor and dealer; it also fills in a price that is still missing. */
  function WithCatalogue(env: Env, o: Order, refs: Refs): Result<Order> {
    if o.motor == "" then Ok(o)
    else if o.motor !in env.motors then Err(MotorNotFound)
    else if o.dealer !in env.dealers then Err(DealerNotFound)
    else if !AreaAllowed(env.motors[o.motor], env.dealers[o.dealer].province, env.dealers[o.dealer].regency) then Err(AreaMismatch)
    else Ok(if refs.motor.None? && o.otr <= 0.0 then o.(otr := env.motors[o.motor].otr) else o)
  }

  /** The row that Update saves in place of `o`, or the reason it refuses. */
  function ChangedOrder(env: Env, o: Order, refs: Refs, req: UpdateRequest): Result<Order> {
    var o1 :- WithTimes(WithPlainFields(o, refs, req), req);
    var o2 :- WithProvince(o1, req);
    var o3 :- WithPayment(env, o2, refs, req);
    WithCatalogue(env, o3, refs)
  }

  // ---------------------------------------------------------------- tables

  /** Live orders of a pooling number: soft-deleted rows are invisible to the count. */
  function LiveIds(orders: map<Id, Order>, pooling: string): set<Id> {
    set id | id in orders && !orders[id].deleted && orders[id].pooling == pooling
  }

  predicate Live(db: Db, id: Id) {
    id in db.orders && !db.orders[id].deleted
  }

  predicate HasAttempt(atts: seq<Attempt>, no: int) {
    exists i | 0 <= i < |atts| :: atts[i].no == no
  }

  function FindAttempt(atts: seq<Attempt>, no: int): (r: Option<Attempt>)
    ensures r.Some? <==> HasAttempt(atts, no)
    ensures r.Some? ==> r.value in atts && r.value.no == no
  {
    if atts == [] then None
    else if atts[0].no == no then Some(atts[0])
    else FindAttempt(atts[1..], no)
  }

  /** It is the first with the number: none before it has that. */
  lemma {:induction false} FirstFound(atts: seq<Attempt>, no: int) returns (i: nat)
    requires HasAttempt(atts, no)
    ensures i < |atts| && FindAttempt(atts, no) == Some(atts[i]) && forall j | 0 <= j < i :: atts[j].no != no
  {
    if atts[0].no == no {
      i := 0;
    } else {
      var k :| 0 <= k < |atts| && atts[k].no == no;
      assert atts[1..][k - 1].no == no;
      var rest := FirstFound(atts[1..], no);
      i := rest + 1;
    }
  }

  predicate Rejected(status: string) {
    Lower(status) == "reject"
  }

  predicate TrimRejected(status: string) {
    Lower(Trim(status)) == "reject"
  }

  /** Status and notes of the copy: the second finance company's, else the first's. */
  function CloneResult(status: string, notes: string, status2: string, notes2: string): (string, string) {
    (if Blank(status2) then Lower(Trim(status)) else Lower(Trim(status2)),
     if Blank(notes2) then Trim(notes) else Trim(notes2))
  }

  function CloneStatus(source: Order, status: string): string {
    if Blank(status) then Lower(Trim(source.status)) else Lower(Trim(status))
  }

  function CloneAttempts(status: string, notes: string, company: string, drawn: Drawn): seq<Attempt> {
    if Blank(company) then []
    else [Attempt(drawn.cloneAttempt, Trim(company), 1, status, Trim(notes), drawn.cloneAttemptAt)]
  }

  function Copy(source: Order, status: string, notes: string, at: int): Order {
    source.(status := status, notes := Trim(notes), createdAt := at, deleted := false)
  }

  /** The tables after copying a rejected order, unless its pooling number is full. */
  function Duplicate(db: Db, source: Order, status: string, notes: string, company: string, drawn: Drawn): Db {
    if |LiveIds(db.orders, source.pooling)| >= 2 then db
    else
      var s := CloneStatus(source, status);
      Db(db.orders[drawn.clone := Copy(source, s, notes, drawn.cloneAt)],
         db.attempts[drawn.clone := CloneAttempts(s, notes, company, drawn)])
  }

  // ---------------------------------------------------------------- create

  function FirstAttempts(req: CreateRequest, drawn: Drawn): seq<Attempt> {
    [Attempt(drawn.attempt1, req.company, 1, Lower(req.status), req.notes, drawn.attempt1At)]
    + if Rejected(req.status) && req.company2 != "" && req.status2 != ""
      then [Attempt(drawn.attempt2, req.company2, 2, Lower(req.status2), req.notes2, drawn.attempt2At)] else []
  }

  function AfterCreate(db: Db, o: Order, req: CreateRequest, drawn: Drawn): Db {
    var db1 := Db(db.orders[drawn.order := o], db.attempts[drawn.order := FirstAttempts(req, drawn)]);
    if TrimRejected(o.status)
    then var (s, n) := CloneResult(o.status, o.notes, req.status2, req.notes2);
         Duplicate(db1, o, s, n, req.company2, drawn)
    else db1
  }

  function Create(db: Db, env: Env, scope: Scope, req: CreateRequest, drawn: Drawn): (Db, Result<Order>) {
    match NewOrder(env, scope, req, drawn.orderAt)
    case Err(e) => (db, Err(e))
    case Ok(o) =>
      if |LiveIds(db.orders, o.pooling)| >= 2 then (db, Err(PoolingFull))
      else (AfterCreate(db, o, req, drawn), Ok(o))
  }

  // ---------------------------------------------------------------- update

  /** What Update does to one stored attempt; None when it deletes it. */
  function Rewrite(a: Attempt, rejected: bool, refs: Refs, req: UpdateRequest): Option<Attempt> {
    if a.no == 1 then
      Some(a.(company := OrElse(refs.company, a.company),
              status := if req.status.Some? then Lower(req.status.value) else a.status,
              notes := OrElse(req.notes, a.notes)))
    else if a.no == 2 then
      if !rejected || (req.company2.Some? && refs.company2.None?) then None
      else Some(a.(company := OrElse(refs.company2, a.company),
                   status := if req.status2.Some? && req.status2.value != "" then Lower(req.status2.value) else a.status,
                   notes := OrElse(req.notes2, a.notes)))
    else if a.no >= 3 then None
    else Some(a)
  }

  function RewriteAll(atts: seq<Attempt>, rejected: bool, refs: Refs, req: UpdateRequest): seq<Attempt> {
    if atts == [] then []
    else
      var last := Rewrite(atts[|atts| - 1], rejected, refs, req);
      RewriteAll(atts[..|atts| - 1], rejected, refs, req) + if last.Some? then [last.value] else []
  }

  function AddedAttempts(atts: seq<Attempt>, rejected: bool, refs: Refs, req: UpdateRequest, drawn: Drawn): seq<Attempt> {
    if rejected && refs.company2.Some? && !HasAttempt(atts, 2)
    then [Attempt(drawn.attempt2, refs.company2.value, 2, Lower(OrElse(req.status2, "")), OrElse(req.notes2, ""), drawn.attempt2At)]
    else []
  }

  /** Status, notes and company of the copy that Update makes of a newly rejected order. */
  function CopyOf(o: Order, atts: seq<Attempt>, refs: Refs, req: UpdateRequest): (string, string, string) {
    var second := FindAttempt(atts, 2);
    var status2, notes2 := OrElse(req.status2, ""), OrElse(req.notes2, "");
    var (s, n) := CloneResult(o.status, o.notes,
                              if Blank(status2) && second.Some? then second.value.status else status2,
                              if Blank(notes2) && second.Some? then second.value.notes else notes2);
    (s, n, if refs.company2.Some? then refs.company2.value
           else if second.Some? then second.value.company else "")
  }

  /** The saved row with its attempts rewritten and the missing second one added. */
  function AfterSave(db: Db, id: Id, o: Order, refs: Refs, req: UpdateRequest, drawn: Drawn): Db
    requires id in db.attempts
  {
    var atts, rejected := db.attempts[id], Rejected(o.status);
    Db(db.orders[id := o],
       db.attempts[id := RewriteAll(atts, rejected, refs, req) + AddedAttempts(atts, rejected, refs, req, drawn)])
  }

  function AfterUpdate(db: Db, id: Id, o: Order, refs: Refs, req: UpdateRequest, drawn: Drawn): Db
    requires id in db.orders && id in db.attempts
  {
    var db1 := AfterSave(db, id, o, refs, req, drawn);
    if TrimRejected(o.status) && !TrimRejected(db.orders[id].status)
    then var atts := db.attempts[id];
         var (s, n, company) := CopyOf(o, atts + AddedAttempts(atts, Rejected(o.status), refs, req, drawn), refs, req);
         Duplicate(db1, o, s, n, company, drawn)
    else db1
  }

  /** Everything Update checks before its transaction. */
  function Requested(db: Db, env: Env, scope: Scope, id: Id, req: UpdateRequest): Result<(Refs, Order)> {
    var refs :- ParseRefs(req, env);
    var _ :- Check(Live(db, id), NotFound);
    var _ :- Check(scope.MayChange(db.orders[id], "orders:update_all"), NotAllowed);
    var o :- ChangedOrder(env, db.orders[id], refs, req);
    Ok((refs, o))
  }

  function Update(db: Db, env: Env, scope: Scope, id: Id, req: UpdateRequest, drawn: Drawn): (r: (Db, Result<Order>))
    requires db.orders.Keys == db.attempts.Keys
    ensures r.0.orders.Keys == r.0.attempts.Keys
  {
    match Requested(db, env, scope, id, req)
    case Err(e) => (db, Err(e))
    case Ok((refs, o)) =>
      if |LiveIds(db.orders, o.pooling) - {id}| >= 2 then (db, Err(PoolingFull))
      else (AfterUpdate(db, id, o, refs, req, drawn), Ok(o))
  }

  // ---------------------------------------------------------------- delete

  function Delete(db: Db, scope: Scope, id: Id): (Db, Result<()>) {
    if !Live(db, id) then (db, Err(NotFound))
    else if !scope.MayChange(db.orders[id], "orders:delete_all") then (db, Err(NotAllowed))
    else (db.(orders := db.orders[id := db.orders[id].(deleted := true)]), Ok(()))
  }
}
